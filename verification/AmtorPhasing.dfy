/** Where amtor-decoder.cpp takes a message to begin and to end, in any stream of words, however distorted. */
module AmtorPhasing {
  import opened AmtorReceiver
  import opened AmtorWords
  import opened Options

  lemma TakeNext(strict: bool, r: Receiver, words: seq<nat>, k: nat)
    requires k < |words|
    ensures TakeAll(strict, r, words[..k + 1]) == Take(strict, TakeAll(strict, r, words[..k]), words[k])
  {
    assert words[..k + 1][..k] == words[..k];
  }

  // ----- the beginning

  /** ALPHA, and then no BETA. */
  predicate BeginsAt(words: seq<nat>, k: nat) {
    0 < k < |words| && words[k - 1] == ALPHA && words[k] != BETA
  }

  /** The receiver has nothing but looked for a beginning; last is the word before. */
  predicate Waiting(t: Receiver, r: Receiver, last: nat) {
    && t.out == r.out && t.fed == r.fed
    && (t.phase.X1? <==> last == ALPHA) && (t.phase.X1? || t.phase.X2? || (t.phase.X0? && last != BETA))
  }

  /** Until a message begins, nothing is handed on or put into the queue. */
  lemma {:induction false} Waits(strict: bool, r: Receiver, words: seq<nat>, k: nat)
    requires r.phase.X0? || r.phase.X2?
    requires k <= |words| && forall j {:trigger BeginsAt(words, j)} :: 0 <= j < k ==> !BeginsAt(words, j)
    ensures Waiting(TakeAll(strict, r, words[..k]), r, if k == 0 then 0 else words[k - 1])
    decreases k
  {
    if k > 0 {
      Waits(strict, r, words, k - 1);
      TakeNext(strict, r, words, k - 1);
      assert !BeginsAt(words, k - 1);
    }
  }

  /** A message begins exactly at the first word that follows an ALPHA and is no BETA, with that word. */
  lemma BeginsExactly(strict: bool, r: Receiver, words: seq<nat>, k: nat)
    requires r.phase.X0? || r.phase.X2?
    requires k < |words| && forall j {:trigger BeginsAt(words, j)} :: 0 <= j < k ==> !BeginsAt(words, j)
    ensures TakeAll(strict, r, words[..k + 1]).phase.X3? <==> BeginsAt(words, k)
    ensures BeginsAt(words, k) ==> TakeAll(strict, r, words[..k + 1]) == Receiver(X3, [words[k]], r.out)
  {
    Waits(strict, r, words, k);
    TakeNext(strict, r, words, k);
  }

  // ----- the end

  function Later(n: nat, end: Option<nat>): Option<nat> {
    match end
    case None => None
    case Some(e) => Some(e + n)
  }

  /** How many words of a message are left, behind its first, if these follow.  A phasing signal and the word behind it
      are looked at together: both of them, in either order, are the end. */
  function EndOf(words: seq<nat>): (r: Option<nat>)
    ensures r.Some? ==> 2 <= r.value <= |words|
  {
    if words == [] then None
    else if !Phasing(words[0]) then Later(1, EndOf(words[1..]))
    else if |words| == 1 then None
    else if Phasing(words[1]) && words[0] != words[1] then Some(2)
    else Later(2, EndOf(words[2..]))
  }

  /** The queue is given these words. */
  function AddAll(strict: bool, r: Receiver, words: seq<nat>): Receiver
    decreases |words|
  {
    if words == [] then r else AddAll(strict, Add(strict, r, words[0]), words[1..])
  }

  lemma AddKeepsPhase(strict: bool, r: Receiver, p: Phase, w: nat)
    ensures Add(strict, r.(phase := p), w) == Add(strict, r, w).(phase := p)
  {
  }

  lemma {:induction false} AddAllKeepsPhase(strict: bool, r: Receiver, p: Phase, words: seq<nat>)
    ensures AddAll(strict, r.(phase := p), words) == AddAll(strict, r, words).(phase := p)
    decreases |words|
  {
    if words != [] {
      AddKeepsPhase(strict, r, p, words[0]);
      AddAllKeepsPhase(strict, Add(strict, r, words[0]), p, words[1..]);
    }
  }

  lemma {:induction false} AddAllFeeds(strict: bool, r: Receiver, words: seq<nat>)
    ensures AddAll(strict, r, words).fed == r.fed + words && AddAll(strict, r, words).phase == r.phase
    ensures r.out <= AddAll(strict, r, words).out
    decreases |words|
  {
    if words != [] {
      AddAllFeeds(strict, Add(strict, r, words[0]), words[1..]);
      assert r.fed + [words[0]] + words[1..] == r.fed + words;
    }
  }

  lemma TakeOne(strict: bool, r: Receiver, w: nat)
    ensures TakeAll(strict, r, [w]) == Take(strict, r, w)
  {
    assert [w][..0] == [];
  }

  lemma TakeFirst(strict: bool, r: Receiver, words: seq<nat>)
    requires words != []
    ensures TakeAll(strict, r, words) == TakeAll(strict, Take(strict, r, words[0]), words[1..])
  {
    assert words == [words[0]] + words[1..];
    TakeConcat(strict, r, [words[0]], words[1..]);
    TakeOne(strict, r, words[0]);
  }

  lemma TakeTwo(strict: bool, r: Receiver, words: seq<nat>)
    requires |words| >= 2
    ensures TakeAll(strict, r, words)
            == TakeAll(strict, Take(strict, Take(strict, r, words[0]), words[1]), words[2..])
    ensures AddAll(strict, r, words) == AddAll(strict, Add(strict, Add(strict, r, words[0]), words[1]), words[2..])
  {
    TakeFirst(strict, r, words);
    TakeFirst(strict, Take(strict, r, words[0]), words[1..]);
    assert words[1..][1..] == words[2..] && words[1..][0] == words[1];
  }

  /** Two words that are no end leave the receiver in the message. */
  lemma PairGoesOn(strict: bool, r: Receiver, v: nat, w: nat)
    requires r.phase.X3? && Phasing(v)
    ensures Take(strict, Take(strict, r, v), w)
            == Add(strict, Add(strict, r, v), w).(phase := if Phasing(w) && v != w then X6 else X3)
  {
  }

  /** Within the message all words go into the queue; it goes on for as long as EndOf finds no end. */
  predicate InMessage(t: Receiver, all: Receiver) {
    t == all.(phase := t.phase) && (t.phase.X3? || t.phase.X4? || t.phase.X5?)
  }

  lemma {:induction false} GoesOn(strict: bool, r: Receiver, words: seq<nat>)
    requires r.phase.X3? && EndOf(words) == None
    ensures InMessage(TakeAll(strict, r, words), AddAll(strict, r, words))
    decreases |words|
  {
    if words == [] {
    } else if !Phasing(words[0]) {
      TakeFirst(strict, r, words);
      GoesOn(strict, Add(strict, r, words[0]), words[1..]);
    } else if |words| == 1 {
      TakeFirst(strict, r, words);
      assert words[1..] == [];
    } else {
      TakeTwo(strict, r, words);
      PairGoesOn(strict, r, words[0], words[1]);
      GoesOn(strict, Add(strict, Add(strict, r, words[0]), words[1]), words[2..]);
    }
  }

  lemma {:induction false} EndIsReached(strict: bool, r: Receiver, words: seq<nat>)
    requires r.phase.X3? && EndOf(words) == Some(|words|)
    ensures TakeAll(strict, r, words) == AddAll(strict, r, words).(phase := X6)
    decreases |words|
  {
    if !Phasing(words[0]) {
      TakeFirst(strict, r, words);
      EndIsReached(strict, Add(strict, r, words[0]), words[1..]);
    } else {
      TakeTwo(strict, r, words);
      PairGoesOn(strict, r, words[0], words[1]);
      if Phasing(words[1]) && words[0] != words[1] {
        assert words[2..] == [];
      } else {
        EndIsReached(strict, Add(strict, Add(strict, r, words[0]), words[1]), words[2..]);
      }
    }
  }

  lemma {:induction false} EndIsLocal(words: seq<nat>, n: nat)
    requires EndOf(words) == Some(n)
    ensures EndOf(words[..n]) == Some(n)
    decreases |words|
  {
    var front := words[..n];
    if !Phasing(words[0]) {
      EndIsLocal(words[1..], n - 1);
      assert front[1..] == words[1..][..n - 1];
    } else if !(Phasing(words[1]) && words[0] != words[1]) {
      EndIsLocal(words[2..], n - 2);
      assert front[2..] == words[2..][..n - 2];
    }
  }

  /** A message ends exactly with the pair that EndOf finds: up to it every word goes into the queue, the word behind it
      flushes the screen and is lost, and the receiver waits for the next message. */
  lemma EndsExactly(strict: bool, r: Receiver, words: seq<nat>)
    requires r.phase.X3?
    ensures EndOf(words) == None ==> InMessage(TakeAll(strict, r, words), AddAll(strict, r, words))
    ensures match EndOf(words)
            case None => true
            case Some(n) =>
              && TakeAll(strict, r, words[..n]) == AddAll(strict, r, words[..n]).(phase := X6)
              && (n < |words| ==> TakeAll(strict, r, words[..n + 1])
                                  == Receiver(X0, r.fed + words[..n], AddAll(strict, r, words[..n]).out + [Flush]))
  {
    match EndOf(words)
    case None => GoesOn(strict, r, words);
    case Some(n) =>
      EndIsLocal(words, n);
      EndIsReached(strict, r, words[..n]);
      AddAllFeeds(strict, r, words[..n]);
      if n < |words| {
        TakeNext(strict, r, words, n);
      }
  }

  /** One phasing signal that is received twice hides the end behind it. */
  lemma EndMayBeHidden(words: seq<nat>)
    requires words == [ALPHA, ALPHA, BETA] || words == [BETA, BETA, ALPHA]
    ensures EndOf(words) == None && EndOf(words[1..]) == Some(2)
  {
    assert words[2..] == [words[2]];
  }
}
