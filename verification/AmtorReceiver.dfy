/** What amtor-decoder.cpp makes of a stream of words: phasing, time diversity and the end of a message. */
module AmtorReceiver {
  import opened AmtorWords

  datatype Phase = X0 | X1 | X2 | X3 | X4 | X5 | X6

  /** A call of HandleChar, or the blanks at the end of a message. */
  datatype Event = Char(word: nat) | Flush

  /** fed is what the queue has been given since the message began, out all that came of it. */
  datatype Receiver = Receiver(phase: Phase, fed: seq<nat>, out: seq<Event>)

  /** Word k is a first copy: it is not a phasing signal, nor the second copy of the word five slots earlier. */
  predicate Fresh(fed: seq<nat>, k: nat)
    requires k < |fed|
  {
    !Phasing(fed[k]) && !(k >= 5 && Fresh(fed, k - 5))
  }

  /** What is handed on for word k; strict is amtorFecError, and HandleChar ('x') hands on 0x78, which is ALPHA. */
  function Chosen(strict: bool, fed: seq<nat>, k: nat): nat
    requires k + 5 < |fed|
  {
    if fed[k] == fed[k + 5] || !strict then fed[k] else ALPHA
  }

  /** What comes of the queue when the next word enters. */
  function Released(strict: bool, fed: seq<nat>): seq<Event> {
    if |fed| >= 6 && Fresh(fed, |fed| - 6) then [Char(Chosen(strict, fed, |fed| - 6))] else []
  }

  function Add(strict: bool, r: Receiver, w: nat): Receiver {
    Receiver(r.phase, r.fed + [w], r.out + Released(strict, r.fed))
  }

  function Take(strict: bool, r: Receiver, w: nat): Receiver {
    match r.phase
    case X0 => r.(phase := if w == BETA then X2 else if w == ALPHA then X1 else X0)
    case X1 =>
      if w == BETA then r.(phase := X2) else Add(strict, Receiver(X3, [], r.out), w)
    case X2 => r.(phase := if w == ALPHA then X1 else X2)
    case X3 => Add(strict, r.(phase := if w == ALPHA then X4 else if w == BETA then X5 else X3), w)
    case X4 => Add(strict, r.(phase := if w == BETA then X6 else X3), w)
    case X5 => Add(strict, r.(phase := if w == ALPHA then X6 else X3), w)
    case X6 => r.(phase := X0, out := r.out + [Flush])
  }

  function TakeAll(strict: bool, r: Receiver, words: seq<nat>): Receiver {
    if words == [] then r
    else Take(strict, TakeAll(strict, r, words[..|words| - 1]), words[|words| - 1])
  }

  lemma {:induction false} TakeConcat(strict: bool, r: Receiver, a: seq<nat>, b: seq<nat>)
    ensures TakeAll(strict, r, a + b) == TakeAll(strict, TakeAll(strict, r, a), b)
  {
    if b == [] {
      assert a + b == a;
    } else {
      var ab := a + b;
      assert ab[..|ab| - 1] == a + b[..|b| - 1] && ab[|ab| - 1] == b[|b| - 1];
      TakeConcat(strict, r, a, b[..|b| - 1]);
    }
  }

  // ----- a message on the air

  /** Slot i of a message: first copies in the even slots, second copies five slots later, phasing signals in
      the slots that are left, and one more pair of these at the end. */
  function Slot(text: seq<nat>, again: seq<nat>, i: nat): nat
    requires |again| == |text|
  {
    if i % 2 == 0 then
      if i / 2 < |text| then text[i / 2] else BETA
    else
      if i >= 5 && (i - 5) / 2 < |text| then again[(i - 5) / 2] else ALPHA
  }

  function Slots(text: seq<nat>, again: seq<nat>, n: nat): (s: seq<nat>)
    requires |again| == |text|
    ensures |s| == n && forall i :: 0 <= i < n ==> s[i] == Slot(text, again, i)
  {
    if n == 0 then [] else Slots(text, again, n - 1) + [Slot(text, again, n - 1)]
  }

  function Message(text: seq<nat>, again: seq<nat>): seq<nat>
    requires |again| == |text|
  {
    Slots(text, again, 2 * |text| + 8)
  }

  predicate PlainText(text: seq<nat>) {
    forall i :: 0 <= i < |text| ==> Plain(text[i])
  }

  function Chars(text: seq<nat>): (s: seq<Event>)
    ensures |s| == |text| && forall i :: 0 <= i < |text| ==> s[i] == Char(text[i])
  {
    if text == [] then [] else Chars(text[..|text| - 1]) + [Char(text[|text| - 1])]
  }

  /** The words that come of text when again is what the second copies have become: a strict receiver puts ALPHA,
      which prints a blank, for a word whose copies differ. */
  function Told(strict: bool, text: seq<nat>, again: seq<nat>): (s: seq<nat>)
    requires |again| == |text|
    ensures IsTold(strict, text, again, s)
    ensures !strict || again == text ==> s == text
  {
    seq(|text|, i requires 0 <= i < |text| => if strict && text[i] != again[i] then ALPHA else text[i])
  }

  predicate IsTold(strict: bool, text: seq<nat>, again: seq<nat>, told: seq<nat>)
    requires |again| == |text|
  {
    && |told| == |text|
    && forall i :: 0 <= i < |text| ==> told[i] == if strict && text[i] != again[i] then ALPHA else text[i]
  }

  /** What comes of a message: one or two characters are lost. */
  function Heard(text: seq<nat>): seq<Event> {
    if |text| == 0 then [] else if |text| < 3 then [Flush] else Chars(text) + [Flush]
  }

  /** The first copies are exactly the words in the even slots. */
  lemma {:induction false} FirstCopiesAreFresh(text: seq<nat>, again: seq<nat>, n: nat, k: nat)
    requires |again| == |text| && PlainText(text) && PlainText(again) && k < n
    ensures Fresh(Slots(text, again, n), k) <==> k % 2 == 0 && k < 2 * |text|
    decreases k
  {
    if k >= 5 {
      FirstCopiesAreFresh(text, again, n, k - 5);
    }
  }

  /** Where the receiver is when it has been given the first i slots of a message of at least three words. */
  function Expected(n: nat, i: nat): Phase {
    if i == 0 then X1
    else if i <= 2 * n then if i == 2 || i == 4 then X4 else X3
    else if i < 2 * n + 6 then if i % 2 == 1 then X5 else X3
    else if i == 2 * n + 6 then X6
    else if i == 2 * n + 7 then X0
    else X1
  }

  /** How many characters have come out by then. */
  function Count(n: nat, i: nat): nat {
    if i < 7 then 0 else if (i - 5) / 2 < n then (i - 5) / 2 else n
  }

  lemma ReleasedIsNext(strict: bool, text: seq<nat>, again: seq<nat>, told: seq<nat>, i: nat)
    requires |again| == |text| && PlainText(text) && PlainText(again) && i < 2 * |text| + 6
    requires IsTold(strict, text, again, told)
    ensures Count(|text|, i) <= Count(|text|, i + 1) <= |text|
    ensures Chars(told[..Count(|text|, i)]) + Released(strict, Slots(text, again, i))
            == Chars(told[..Count(|text|, i + 1)])
  {
    var fed, c := Slots(text, again, i), Count(|text|, i);
    if i >= 6 {
      FirstCopiesAreFresh(text, again, i, i - 6);
      if i % 2 == 0 && i - 6 < 2 * |text| {
        assert c == (i - 6) / 2 && Count(|text|, i + 1) == c + 1;
        assert Chosen(strict, fed, i - 6) == told[c];
        OneMoreTold(told, c);
      }
    }
  }

  lemma OneMoreTold(told: seq<nat>, c: nat)
    requires c < |told|
    ensures Chars(told[..c + 1]) == Chars(told[..c]) + [Char(told[c])]
  {
    assert told[..c + 1][..c] == told[..c];
  }

  lemma SlotIsAdded(strict: bool, r: Receiver, text: seq<nat>, again: seq<nat>, i: nat)
    requires |again| == |text| >= 3 && PlainText(text) && PlainText(again)
    requires 0 < i < 2 * |text| + 6 && r.phase == Expected(|text|, i)
    ensures Take(strict, r, Slot(text, again, i))
            == Add(strict, r.(phase := Expected(|text|, i + 1)), Slot(text, again, i))
  {
  }

  lemma {:induction false} MessageSoFar(
    strict: bool, r: Receiver, text: seq<nat>, again: seq<nat>, told: seq<nat>, i: nat)
    requires r.phase == X1 && |again| == |text| >= 3 && PlainText(text) && PlainText(again)
    requires IsTold(strict, text, again, told) && 0 < i <= 2 * |text| + 6
    ensures TakeAll(strict, r, Slots(text, again, i))
            == Receiver(Expected(|text|, i), Slots(text, again, i), r.out + Chars(told[..Count(|text|, i)]))
    decreases i
  {
    var s, w, before := Slots(text, again, i), Slot(text, again, i - 1), Slots(text, again, i - 1);
    assert s[..i - 1] == before && s[i - 1] == w;
    if i == 1 {
      assert before == [];
      assert w == text[0];
    } else {
      MessageSoFar(strict, r, text, again, told, i - 1);
      SlotIsAdded(strict, TakeAll(strict, r, before), text, again, i - 1);
      ReleasedIsNext(strict, text, again, told, i - 1);
      OutGrows(r.out, Chars(told[..Count(|text|, i - 1)]), Released(strict, before));
    }
  }

  lemma OutGrows(a: seq<Event>, b: seq<Event>, c: seq<Event>)
    ensures a + b + c == a + (b + c)
  {
  }

  lemma NextSlot(strict: bool, r: Receiver, text: seq<nat>, again: seq<nat>, i: nat)
    requires |again| == |text|
    ensures TakeAll(strict, r, Slots(text, again, i + 1))
            == Take(strict, TakeAll(strict, r, Slots(text, again, i)), Slot(text, again, i))
  {
    assert Slots(text, again, i + 1)[..i] == Slots(text, again, i);
  }

  /** A message of three words or more is taken as a whole, and the receiver is ready for another. */
  lemma LongMessage(strict: bool, r: Receiver, text: seq<nat>, again: seq<nat>, told: seq<nat>)
    requires r.phase == X1 && |again| == |text| >= 3 && PlainText(text) && PlainText(again)
    requires IsTold(strict, text, again, told)
    ensures var after := TakeAll(strict, r, Message(text, again));
            after.phase == X1 && after.out == r.out + (Chars(told) + [Flush])
  {
    var n := 2 * |text| + 6;
    LongMessageBody(strict, r, text, again, told, n);
    EndsWithPair(strict, r, text, again, n, TakeAll(strict, r, Slots(text, again, n)));
    assert Message(text, again) == Slots(text, again, n + 2);
    OutGrows(r.out, Chars(told), [Flush]);
  }

  lemma EndsWithPair(strict: bool, r: Receiver, text: seq<nat>, again: seq<nat>, n: nat, sofar: Receiver)
    requires |again| == |text| && sofar.phase == X6
    requires sofar == TakeAll(strict, r, Slots(text, again, n))
    requires Slot(text, again, n) == BETA && Slot(text, again, n + 1) == ALPHA
    ensures TakeAll(strict, r, Slots(text, again, n + 2)) == sofar.(phase := X1, out := sofar.out + [Flush])
  {
    NextSlot(strict, r, text, again, n);
    NextSlot(strict, r, text, again, n + 1);
  }

  lemma LongMessageBody(strict: bool, r: Receiver, text: seq<nat>, again: seq<nat>, told: seq<nat>, n: nat)
    requires r.phase == X1 && |again| == |text| >= 3 && PlainText(text) && PlainText(again)
    requires IsTold(strict, text, again, told) && n == 2 * |text| + 6
    ensures var after := TakeAll(strict, r, Slots(text, again, n));
            after.phase == X6 && after.out == r.out + Chars(told)
    ensures Slot(text, again, n) == BETA && Slot(text, again, n + 1) == ALPHA
  {
    MessageSoFar(strict, r, text, again, told, n);
    assert told[..|text|] == told;
  }

  /** A phasing signal in the first free slot is taken for the end of a message of one word. */
  lemma OneWord(strict: bool, r: Receiver, text: seq<nat>, again: seq<nat>)
    requires r.phase == X1 && |again| == |text| == 1 && PlainText(text) && PlainText(again)
    ensures var after := TakeAll(strict, r, Message(text, again));
            after.phase == X1 && after.out == r.out + [Flush]
  {
    OneWordBegins(strict, r, text, again);
    NextSlot(strict, r, text, again, 4);
    NextSlot(strict, r, text, again, 5);
    NextSlot(strict, r, text, again, 6);
    NextSlot(strict, r, text, again, 7);
    NextSlot(strict, r, text, again, 8);
    NextSlot(strict, r, text, again, 9);
  }

  lemma OneWordBegins(strict: bool, r: Receiver, text: seq<nat>, again: seq<nat>)
    requires r.phase == X1 && |again| == |text| == 1 && PlainText(text) && PlainText(again)
    ensures var after := TakeAll(strict, r, Slots(text, again, 4));
            after.phase == X0 && after.out == r.out + [Flush]
  {
    NextSlot(strict, r, text, again, 0);
    NextSlot(strict, r, text, again, 1);
    NextSlot(strict, r, text, again, 2);
    NextSlot(strict, r, text, again, 3);
  }

  lemma TwoWords(strict: bool, r: Receiver, text: seq<nat>, again: seq<nat>)
    requires r.phase == X1 && |again| == |text| == 2 && PlainText(text) && PlainText(again)
    ensures var after := TakeAll(strict, r, Message(text, again));
            after.phase == X1 && after.out == r.out + [Flush]
  {
    TwoWordsBegin(strict, r, text, again);
    NextSlot(strict, r, text, again, 5);
    NextSlot(strict, r, text, again, 6);
    NextSlot(strict, r, text, again, 7);
    NextSlot(strict, r, text, again, 8);
    NextSlot(strict, r, text, again, 9);
    NextSlot(strict, r, text, again, 10);
    NextSlot(strict, r, text, again, 11);
  }

  lemma TwoWordsBegin(strict: bool, r: Receiver, text: seq<nat>, again: seq<nat>)
    requires r.phase == X1 && |again| == |text| == 2 && PlainText(text) && PlainText(again)
    ensures var after := TakeAll(strict, r, Slots(text, again, 5));
            after.phase == X6 && after.out == r.out
  {
    NextSlot(strict, r, text, again, 0);
    NextSlot(strict, r, text, again, 1);
    NextSlot(strict, r, text, again, 2);
    NextSlot(strict, r, text, again, 3);
    NextSlot(strict, r, text, again, 4);
  }

  // ----- phasing

  function Pairs(n: nat): (s: seq<nat>)
    ensures |s| == 2 * n && forall i :: 0 <= i < 2 * n ==> s[i] == if i % 2 == 0 then BETA else ALPHA
  {
    if n == 0 then [] else Pairs(n - 1) + [BETA, ALPHA]
  }

  /** Phasing brings a receiver that waits to the point where a message may begin. */
  lemma {:induction false} PhasingIsSeen(strict: bool, r: Receiver, n: nat)
    requires r.phase == X0 || r.phase == X1
    requires n > 0 || r.phase == X1
    ensures TakeAll(strict, r, Pairs(n)) == r.(phase := X1)
  {
    if n > 0 {
      if n > 1 {
        PhasingIsSeen(strict, r, n - 1);
      }
      PairIsTaken(strict, r, Pairs(n - 1));
    }
  }

  lemma PairIsTaken(strict: bool, r: Receiver, before: seq<nat>)
    ensures TakeAll(strict, r, before + [BETA, ALPHA])
            == Take(strict, Take(strict, TakeAll(strict, r, before), BETA), ALPHA)
  {
    var all := before + [BETA, ALPHA];
    assert all[..|all| - 1] == before + [BETA];
    assert (before + [BETA])[..|before|] == before;
  }

  /** What is heard of a message, once and in order, whatever has become of the second copies. */
  lemma MessageIsHeard(strict: bool, r: Receiver, text: seq<nat>, again: seq<nat>)
    requires r.phase == X1 && |again| == |text| && PlainText(text) && PlainText(again)
    ensures var after := TakeAll(strict, r, Message(text, again));
            after.phase == X1 && after.out == r.out + Heard(Told(strict, text, again))
  {
    if |text| == 0 {
      assert Message(text, again) == Pairs(4);
      PhasingIsSeen(strict, r, 4);
      assert r.(phase := X1) == r;
    } else if |text| == 1 {
      OneWord(strict, r, text, again);
    } else if |text| == 2 {
      TwoWords(strict, r, text, again);
    } else {
      LongMessage(strict, r, text, again, Told(strict, text, again));
    }
  }

  // ----- many messages

  datatype Sending = Sending(text: seq<nat>, again: seq<nat>)

  predicate Proper(m: Sending) {
    |m.again| == |m.text| && PlainText(m.text) && PlainText(m.again)
  }

  predicate AllProper(ms: seq<Sending>) {
    forall i :: 0 <= i < |ms| ==> Proper(ms[i])
  }

  function OnAir(ms: seq<Sending>): seq<nat>
    requires AllProper(ms)
  {
    if ms == [] then [] else Message(ms[0].text, ms[0].again) + OnAir(ms[1..])
  }

  function AllHeard(strict: bool, ms: seq<Sending>): seq<Event>
    requires AllProper(ms)
  {
    if ms == [] then [] else Heard(Told(strict, ms[0].text, ms[0].again)) + AllHeard(strict, ms[1..])
  }

  lemma {:induction false} MessagesAreHeard(strict: bool, r: Receiver, ms: seq<Sending>)
    requires r.phase == X1 && AllProper(ms)
    ensures var after := TakeAll(strict, r, OnAir(ms));
            after.phase == X1 && after.out == r.out + AllHeard(strict, ms)
    decreases |ms|
  {
    if ms != [] {
      var m := ms[0];
      var first := Message(m.text, m.again);
      MessageIsHeard(strict, r, m.text, m.again);
      TakeConcat(strict, r, first, OnAir(ms[1..]));
      MessagesAreHeard(strict, TakeAll(strict, r, first), ms[1..]);
      OutGrows(r.out, Heard(Told(strict, m.text, m.again)), AllHeard(strict, ms[1..]));
    }
  }
}
