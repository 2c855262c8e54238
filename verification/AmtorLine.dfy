/** How the receiver of amtor-decoder.cpp finds the words in a stream of bits, and what it hears in the end. */
module AmtorLine {
  import opened AmtorClock
  import opened AmtorReceiver
  import opened AmtorWords

  /** The shift register after another bit, see addfullBit. */
  function Shifted(reg: seq<bool>, b: bool): seq<bool> {
    if |reg| < 6 then reg + [b]
    else if Ones(reg + [b]) == 4 then []
    else (reg + [b])[1..]
  }

  function WordRead(reg: seq<bool>, b: bool): seq<nat> {
    if |reg| < 6 || Ones(reg + [b]) != 4 then [] else [Value(reg + [b])]
  }

  function RegAfter(reg: seq<bool>, bits: seq<bool>): seq<bool> {
    if bits == [] then reg else Shifted(RegAfter(reg, bits[..|bits| - 1]), bits[|bits| - 1])
  }

  function WordsRead(reg: seq<bool>, bits: seq<bool>): seq<nat> {
    if bits == [] then []
    else WordsRead(reg, bits[..|bits| - 1]) + WordRead(RegAfter(reg, bits[..|bits| - 1]), bits[|bits| - 1])
  }

  lemma {:induction false} ReadConcat(reg: seq<bool>, a: seq<bool>, b: seq<bool>)
    ensures RegAfter(reg, a + b) == RegAfter(RegAfter(reg, a), b)
    ensures WordsRead(reg, a + b) == WordsRead(reg, a) + WordsRead(RegAfter(reg, a), b)
  {
    if b == [] {
      assert a + b == a;
    } else {
      var ab, front := a + b, b[..|b| - 1];
      assert ab[..|ab| - 1] == a + front && ab[|ab| - 1] == b[|b| - 1];
      ReadConcat(reg, a, front);
    }
  }

  predicate WordAt(bits: seq<bool>, j: nat)
    requires j + 7 <= |bits|
  {
    Ones(bits[j..j + 7]) == 4
  }

  lemma {:induction false} Fills(bits: seq<bool>)
    requires |bits| <= 6
    ensures WordsRead([], bits) == [] && RegAfter([], bits) == bits
  {
    if bits != [] {
      Fills(bits[..|bits| - 1]);
    }
  }

  /** As long as no seven bits make a word, the register slides over them. */
  lemma {:induction false} Slides(bits: seq<bool>, k: nat)
    requires 6 <= k <= |bits|
    requires forall j: nat {:trigger WordAt(bits, j)} :: j + 7 <= k ==> !WordAt(bits, j)
    ensures WordsRead([], bits[..k]) == [] && RegAfter([], bits[..k]) == bits[k - 6..k]
    decreases k
  {
    if k == 6 {
      Fills(bits[..k]);
    } else {
      Slides(bits, k - 1);
      assert !WordAt(bits, k - 7);
      assert bits[k - 7..k] == bits[k - 7..k - 1] + [bits[k - 1]];
      OneOn(bits[..k - 1], bits[k - 7..k - 1], bits[k - 1]);
      assert bits[..k] == bits[..k - 1] + [bits[k - 1]];
    }
  }

  lemma OneOn(before: seq<bool>, reg: seq<bool>, b: bool)
    requires WordsRead([], before) == [] && RegAfter([], before) == reg
    requires |reg| == 6 && Ones(reg + [b]) != 4
    ensures WordsRead([], before + [b]) == [] && RegAfter([], before + [b]) == (reg + [b])[1..]
  {
    assert (before + [b])[..|before|] == before;
  }

  /** Sliding ends at the first seven bits that make a word. */
  lemma FirstWord(bits: seq<bool>, k: nat)
    requires |bits| == k + 7 && WordAt(bits, k) && forall j :: 0 <= j < k ==> !WordAt(bits, j)
    ensures WordsRead([], bits) == [Value(bits[k..])] && RegAfter([], bits) == []
  {
    Slides(bits, k + 6);
    assert bits[..|bits| - 1] == bits[..k + 6];
    assert bits[k..k + 6] + [bits[k + 6]] == bits[k..k + 7] == bits[k..];
  }

  lemma OneWordIsRead(w: nat, bits: seq<bool>)
    requires Valid(w) && bits == BitsOf(w, 7)
    ensures WordsRead([], bits) == [w] && RegAfter([], bits) == []
  {
    ValueOfBits(w, 7);
    WordBits(w, bits);
  }

  lemma WordBits(w: nat, bits: seq<bool>)
    requires |bits| == 7 && Ones(bits) == 4 && Value(bits) == w
    ensures WordsRead([], bits) == [w] && RegAfter([], bits) == []
  {
    assert bits[0..7] == bits == bits[0..];
    assert WordAt(bits, 0);
    FirstWord(bits, 0);
  }

  lemma ReadsAfterWord(bits: seq<bool>, w: nat, rest: seq<bool>, words: seq<nat>)
    requires WordsRead([], bits) == [w] && RegAfter([], bits) == []
    requires WordsRead([], rest) == words && RegAfter([], rest) == []
    ensures WordsRead([], bits + rest) == [w] + words && RegAfter([], bits + rest) == []
  {
    ReadConcat([], bits, rest);
  }

  lemma {:induction false} WordsAreRead(words: seq<nat>)
    requires forall i :: 0 <= i < |words| ==> Valid(words[i])
    ensures WordsRead([], SendAll(words)) == words && RegAfter([], SendAll(words)) == []
  {
    if words != [] {
      WordsAreRead(words[1..]);
      FirstIsRead(words[0], words[1..]);
      assert [words[0]] + words[1..] == words;
    }
  }

  lemma FirstIsRead(w: nat, words: seq<nat>)
    requires Valid(w) && WordsRead([], SendAll(words)) == words && RegAfter([], SendAll(words)) == []
    ensures WordsRead([], BitsOf(w, 7) + SendAll(words)) == [w] + words
    ensures RegAfter([], BitsOf(w, 7) + SendAll(words)) == []
  {
    var bits, rest := BitsOf(w, 7), SendAll(words);
    OneWordIsRead(w, bits);
    ReadsAfterWord(bits, w, rest, words);
  }

  // ----- finding the words while phasing

  lemma {:induction false} OnesConcat(a: seq<bool>, b: seq<bool>)
    ensures Ones(a + b) == Ones(a) + Ones(b)
  {
    if b == [] {
      assert a + b == a;
    } else {
      var ab, front := a + b, b[..|b| - 1];
      assert ab[..|ab| - 1] == a + front && ab[|ab| - 1] == b[|b| - 1];
      OnesConcat(a, front);
    }
  }

  /** The ones among the first n of seven bits. */
  function FirstOnes(s: seq<bool>, n: nat): nat
    requires |s| == 7
  {
    (if n > 0 then One(s[0]) else 0) + (if n > 1 then One(s[1]) else 0) + (if n > 2 then One(s[2]) else 0)
    + (if n > 3 then One(s[3]) else 0) + (if n > 4 then One(s[4]) else 0) + (if n > 5 then One(s[5]) else 0)
    + (if n > 6 then One(s[6]) else 0)
  }

  lemma {:induction false} OnesOfPrefix(s: seq<bool>, n: nat)
    requires n <= 7 == |s|
    ensures Ones(s[..n]) == FirstOnes(s, n)
  {
    if n > 0 {
      OnesOfPrefix(s, n - 1);
      assert s[..n][..n - 1] == s[..n - 1];
    }
  }

  lemma PrefixValue(s: seq<bool>, k: nat)
    requires k < |s|
    ensures Value(s[..k + 1]) == 2 * Value(s[..k]) + One(s[k])
  {
    assert s[..k + 1][..k] == s[..k];
  }

  lemma SevenBitValue(s: seq<bool>)
    requires |s| == 7
    ensures Value(s) == 64 * One(s[0]) + 32 * One(s[1]) + 16 * One(s[2]) + 8 * One(s[3]) + 4 * One(s[4])
                        + 2 * One(s[5]) + One(s[6])
  {
    PrefixValue(s, 0);
    PrefixValue(s, 1);
    PrefixValue(s, 2);
    PrefixValue(s, 3);
    PrefixValue(s, 4);
    PrefixValue(s, 5);
    PrefixValue(s, 6);
    assert s[..0] == [] && s[..7] == s;
  }

  lemma {:induction false} BitsOfValueOf(bits: seq<bool>)
    ensures BitsOf(Value(bits), |bits|) == bits
  {
    if bits != [] {
      var front := bits[..|bits| - 1];
      BitsOfValueOf(front);
      assert Value(bits) / 2 == Value(front);
      assert front + [bits[|bits| - 1]] == bits;
    }
  }

  lemma PhasingBits(alpha: seq<bool>, beta: seq<bool>)
    requires alpha == [true, true, true, true, false, false, false]
    requires beta == [false, true, true, false, false, true, true]
    ensures BitsOf(ALPHA, 7) == alpha && BitsOf(BETA, 7) == beta
  {
    BitsOfValueOf(alpha);
    BitsOfValueOf(beta);
    SevenBitValue(alpha);
    SevenBitValue(beta);
  }

  /** Between two phasing signals nothing looks like a word. */
  lemma NoFalseWord(alpha: seq<bool>, beta: seq<bool>, j: nat)
    requires 0 < j < 7 && |alpha| == |beta| == 7
    requires alpha == [true, true, true, true, false, false, false]
    requires beta == [false, true, true, false, false, true, true]
    ensures Ones(alpha[j..] + beta[..j]) < 4 < Ones(beta[j..] + alpha[..j])
  {
    Halves(alpha, beta, j);
    Halves(beta, alpha, j);
  }

  lemma Halves(a: seq<bool>, b: seq<bool>, j: nat)
    requires j < 7 && |a| == |b| == 7
    ensures Ones(a[j..] + b[..j]) == FirstOnes(a, 7) - FirstOnes(a, j) + FirstOnes(b, j)
  {
    OnesConcat(a[j..], b[..j]);
    OnesConcat(a[..j], a[j..]);
    assert a[..j] + a[j..] == a[..7];
    OnesOfPrefix(a, 7);
    OnesOfPrefix(a, j);
    OnesOfPrefix(b, j);
  }

  /** The last bits of one word and the first j of the next are no word. */
  predicate NoWord(a: seq<bool>, b: seq<bool>, j: nat)
    requires |a| == |b| == 7 && j < 7
  {
    Ones(a[j..] + b[..j]) != 4
  }

  predicate Apart(v: nat, w: nat) {
    forall j {:trigger NoWord(BitsOf(v, 7), BitsOf(w, 7), j)} :: 0 < j < 7 ==> NoWord(BitsOf(v, 7), BitsOf(w, 7), j)
  }

  lemma PhasingIsApart(v: nat, w: nat)
    requires Phasing(v) && Phasing(w) && v != w
    ensures Apart(v, w)
  {
    var alpha, beta := [true, true, true, true, false, false, false], [false, true, true, false, false, true, true];
    PhasingBits(alpha, beta);
    forall j | 0 < j < 7
      ensures NoWord(BitsOf(v, 7), BitsOf(w, 7), j)
    {
      NoFalseWord(alpha, beta, j);
    }
  }

  lemma SevenBitWord(bits: seq<bool>)
    requires |bits| == 7
    ensures LowOnes(Value(bits), 7) == FirstOnes(bits, 7) && Value(bits) < 128
  {
    BitsOfValue(bits);
    SevenBitValue(bits);
    OnesOfPrefix(bits, 7);
    assert bits[..7] == bits;
  }

  lemma PhasingIsValid(w: nat)
    requires Phasing(w)
    ensures Valid(w)
  {
    var alpha, beta := [true, true, true, true, false, false, false], [false, true, true, false, false, true, true];
    SevenBitValue(alpha);
    SevenBitValue(beta);
    SevenBitWord(if w == ALPHA then alpha else beta);
  }

  /** A receiver that comes in during one word finds the next. */
  lemma JoinsAtNext(a: seq<bool>, b: seq<bool>, e: nat)
    requires |a| == |b| == 7 && Ones(b) == 4 && 0 < e < 7
    requires forall j {:trigger NoWord(a, b, j)} :: 0 < j < 7 ==> NoWord(a, b, j)
    ensures WordsRead([], a[e..] + b) == [Value(b)] && RegAfter([], a[e..] + b) == []
  {
    var bits := a[e..] + b;
    forall j | 0 <= j < 7 - e
      ensures !WordAt(bits, j)
    {
      assert NoWord(a, b, e + j);
      assert bits[j..j + 7] == a[e + j..] + b[..e + j];
    }
    assert bits[7 - e..7 - e + 7] == b == bits[7 - e..];
    assert WordAt(bits, 7 - e);
    FirstWord(bits, 7 - e);
  }

  lemma {:induction false} SentAfter(words: seq<nat>, k: nat)
    requires k <= |words|
    ensures SendAll(words)[7 * k..] == SendAll(words[k..])
  {
    if k > 0 {
      SentAfter(words[1..], k - 1);
      assert SendAll(words)[7 * k..] == SendAll(words[1..])[7 * (k - 1)..];
      assert words[1..][k - 1..] == words[k..];
    } else {
      assert words[0..] == words;
    }
  }

  lemma {:induction false} SendConcat(a: seq<nat>, b: seq<nat>)
    ensures SendAll(a + b) == SendAll(a) + SendAll(b)
  {
    if a == [] {
      assert a + b == b;
    } else {
      assert (a + b)[0] == a[0] && (a + b)[1..] == a[1..] + b;
      SendConcat(a[1..], b);
    }
  }

  lemma TwoSent(words: seq<nat>, e: nat)
    requires |words| >= 2 && e < 7
    ensures SendAll(words)[e..] == BitsOf(words[0], 7)[e..] + BitsOf(words[1], 7) + SendAll(words[2..])
  {
    assert words[1..][1..] == words[2..];
  }

  lemma JoinsMidWord(words: seq<nat>, e: nat)
    requires |words| >= 2 && 0 < e < 7 && Apart(words[0], words[1])
    requires forall i :: 0 <= i < |words| ==> Valid(words[i])
    ensures WordsRead([], SendAll(words)[e..]) == words[1..] && RegAfter([], SendAll(words)[e..]) == []
  {
    var more := words[2..];
    TwoSent(words, e);
    WordsAreRead(more);
    JoinsSecond(words[0], words[1], BitsOf(words[0], 7), BitsOf(words[1], 7), e, SendAll(more), more);
    assert [words[1]] + more == words[1..];
  }

  lemma JoinsSecond(v: nat, w: nat, a: seq<bool>, b: seq<bool>, e: nat, rest: seq<bool>, more: seq<nat>)
    requires Apart(v, w) && Valid(w) && a == BitsOf(v, 7) && b == BitsOf(w, 7) && 0 < e < 7
    requires WordsRead([], rest) == more && RegAfter([], rest) == []
    ensures WordsRead([], a[e..] + b + rest) == [w] + more && RegAfter([], a[e..] + b + rest) == []
  {
    ValueOfBits(w, 7);
    JoinsAtNext(a, b, e);
    ReadsAfterWord(a[e..] + b, w, rest, more);
  }

  /** Neighbouring signals differ. */
  predicate Alternating(words: seq<nat>) {
    && (forall i :: 0 <= i < |words| ==> Phasing(words[i]))
    && (forall i {:trigger Differ(words, i)} :: 0 <= i < |words| - 1 ==> Differ(words, i))
  }

  predicate Differ(words: seq<nat>, i: nat)
    requires i + 1 < |words|
  {
    words[i] != words[i + 1]
  }

  lemma AlternatingAreValid(words: seq<nat>)
    requires Alternating(words)
    ensures forall i :: 0 <= i < |words| ==> Valid(words[i])
  {
    forall i | 0 <= i < |words|
      ensures Valid(words[i])
    {
      PhasingIsValid(words[i]);
    }
  }

  lemma JoinsWithin(words: seq<nat>, e: nat)
    requires Alternating(words) && e < 7 && e + 7 <= 7 * |words|
    ensures WordsRead([], SendAll(words)[e..]) == (if e == 0 then words else words[1..])
    ensures RegAfter([], SendAll(words)[e..]) == []
  {
    AlternatingAreValid(words);
    if e == 0 {
      WordsAreRead(words);
      assert SendAll(words)[0..] == SendAll(words);
    } else {
      assert Differ(words, 0);
      PhasingIsApart(words[0], words[1]);
      JoinsMidWord(words, e);
    }
  }

  lemma AlternatingFrom(words: seq<nat>, q: nat)
    requires Alternating(words) && q <= |words|
    ensures Alternating(words[q..])
  {
    var rest := words[q..];
    forall i | 0 <= i < |rest| - 1
      ensures Differ(rest, i)
    {
      assert Differ(words, q + i);
    }
  }

  lemma DropTwice<T>(s: seq<T>, a: nat, b: nat)
    requires a + b <= |s|
    ensures s[a..][b..] == s[a + b..]
  {
  }

  /** What is on the line from d bits on, seen from a word boundary. */
  lemma SentFrom(words: seq<nat>, d: nat, q: nat, e: nat)
    requires d == 7 * q + e && e < 7 && d + 7 <= 7 * |words|
    ensures q < |words| && SendAll(words)[d..] == SendAll(words[q..])[e..]
  {
    SentAfter(words, q);
    DropTwice(SendAll(words), 7 * q, e);
  }

  lemma JoinsFrom(words: seq<nat>, d: nat, q: nat, e: nat)
    requires Alternating(words) && d == 7 * q + e && e < 7 && d + 7 <= 7 * |words|
    ensures WordsRead([], SendAll(words)[d..]) == words[if e == 0 then q else q + 1..]
    ensures RegAfter([], SendAll(words)[d..]) == []
  {
    SentFrom(words, d, q, e);
    AlternatingFrom(words, q);
    JoinsWithin(words[q..], e);
    DropTwice(words, q, if e == 0 then 0 else 1);
  }

  /** Wherever in the phasing the receiver comes in: from the next whole word on it reads every word. */
  lemma JoinsPhasing(words: seq<nat>, d: nat, k: nat)
    requires Alternating(words) && d + 7 <= 7 * |words| && 7 * k - 7 < d <= 7 * k
    ensures WordsRead([], SendAll(words)[d..]) == words[k..] && RegAfter([], SendAll(words)[d..]) == []
  {
    if d == 7 * k {
      JoinsFrom(words, d, k, 0);
    } else {
      JoinsFrom(words, d, k - 1, d - 7 * (k - 1));
    }
  }

  // ----- from the fragments to the text

  /** The words that a fresh receiver reads from fragments, and what comes of them. */
  function Decoded(strict: bool, fragments: seq<bool>): Receiver {
    TakeAll(strict, Receiver(X0, [], []), WordsRead([], Recovered(Clock(false, 0), fragments)))
  }

  lemma PairsAlternate(n: nat)
    ensures Alternating(Pairs(n))
  {
    forall i | 0 <= i < 2 * n - 1
      ensures Differ(Pairs(n), i)
    {
    }
  }

  lemma {:induction false} PairsFrom(n: nat, k: nat)
    requires k < 2 * n
    ensures Pairs(n)[k..] == if k % 2 == 0 then Pairs(n - k / 2) else [ALPHA] + Pairs(n - k / 2 - 1)
  {
  }

  /** Phasing that is joined before its last signal ends leaves the receiver ready. */
  lemma JoinedPhasing(strict: bool, r: Receiver, n: nat, k: nat)
    requires r.phase == X0 && k < 2 * n
    ensures TakeAll(strict, r, Pairs(n)[k..]) == r.(phase := X1)
  {
    PairsFrom(n, k);
    if k % 2 == 0 {
      PhasingIsSeen(strict, r, n - k / 2);
    } else {
      TakeConcat(strict, r, [ALPHA], Pairs(n - k / 2 - 1));
      assert [ALPHA][..0] == [];
      assert TakeAll(strict, r, [ALPHA]) == Take(strict, r, ALPHA);
      PhasingIsSeen(strict, r.(phase := X1), n - k / 2 - 1);
    }
  }

  lemma {:induction false} OnAirIsValid(ms: seq<Sending>)
    requires AllProper(ms)
    ensures forall i :: 0 <= i < |OnAir(ms)| ==> Valid(OnAir(ms)[i])
  {
    if ms != [] {
      OnAirIsValid(ms[1..]);
      MessageIsValid(ms[0].text, ms[0].again, 2 * |ms[0].text| + 8);
    }
  }

  lemma MessageIsValid(text: seq<nat>, again: seq<nat>, n: nat)
    requires |again| == |text| && PlainText(text) && PlainText(again)
    ensures forall i :: 0 <= i < n ==> Valid(Slots(text, again, n)[i])
  {
    PhasingIsValid(ALPHA);
    PhasingIsValid(BETA);
  }

  /** From any point in the phasing on, the receiver reads every word of the messages. */
  lemma WordsOfBroadcast(n: nat, d: nat, k: nat, ms: seq<Sending>, words: seq<nat>)
    requires AllProper(ms) && words == OnAir(ms)
    requires d + 7 <= 14 * n && 7 * k - 7 < d <= 7 * k
    ensures WordsRead([], (SendAll(Pairs(n)) + SendAll(words))[d..]) == Pairs(n)[k..] + words
  {
    PairsAlternate(n);
    JoinsPhasing(Pairs(n), d, k);
    OnAirIsValid(ms);
    WordsAreRead(words);
    ReadsOn(SendAll(Pairs(n)), d, SendAll(words));
  }

  lemma ReadsOn(a: seq<bool>, d: nat, b: seq<bool>)
    requires d <= |a| && RegAfter([], a[d..]) == []
    ensures WordsRead([], (a + b)[d..]) == WordsRead([], a[d..]) + WordsRead([], b)
  {
    ReadConcat([], a[d..], b);
    assert (a + b)[d..] == a[d..] + b;
  }

  lemma LeadIsRead(lead: nat, runs: seq<Run>)
    requires Alternate(runs, false) && forall i :: 0 <= i < |runs| ==> InTime(runs[i])
    ensures Recovered(Clock(false, 0), Times(false, lead) + FragmentsSeen(runs))
            == Times(false, lead / 10) + BitsSent(runs)
  {
    var c := Clock(false, 0);
    SteadyLevel(c, lead);
    RecoveredConcat(c, Times(false, lead), FragmentsSeen(runs));
    BitsAreRecovered(ClockAfter(c, Times(false, lead)), runs);
  }

  /** n pairs of phasing signals and some messages are sent; the receiver comes in d bits late, but before the last
      phasing signal, sees lead fragments at the level that it starts with, and after that runs that are in time.
      It hears every message, once and in order. */
  lemma BroadcastIsHeard(strict: bool, n: nat, d: nat, ms: seq<Sending>, lead: nat, runs: seq<Run>)
    requires AllProper(ms) && d + 7 <= 14 * n
    requires Alternate(runs, false) && forall i :: 0 <= i < |runs| ==> InTime(runs[i])
    requires Times(false, lead / 10) + BitsSent(runs) == (SendAll(Pairs(n)) + SendAll(OnAir(ms)))[d..]
    ensures Decoded(strict, Times(false, lead) + FragmentsSeen(runs)).out == AllHeard(strict, ms)
  {
    var start, words, k := Receiver(X0, [], []), OnAir(ms), (d + 6) / 7;
    LeadIsRead(lead, runs);
    WordsOfBroadcast(n, d, k, ms, words);
    JoinedPhasing(strict, start, n, k);
    TakeConcat(strict, start, Pairs(n)[k..], words);
    MessagesAreHeard(strict, start.(phase := X1), ms);
  }
}
