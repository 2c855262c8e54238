/** What processBlock makes of a received block, and what it means for the message that was sent
    (acars-decoder.cpp). */
module BlockRecovery {
  import Framing
  import opened LinearCode
  import opened Options
  import opened Recovery

  /** The number of rows of syndrom. */
  const ROWS := 242

  datatype Outcome<B> = TooShort | TooManyEven | NotFixed | ParityProblem | Printed(text: seq<B>)

  function Strip<B(!new)>(strip: B -> B, txt: seq<B>): (r: seq<B>)
    ensures |r| == |txt|
  {
    seq(|txt|, k requires 0 <= k < |txt| => strip(txt[k]))
  }

  function Forced<B(!new)>(force: B -> B, txt: seq<B>): (r: seq<B>)
    requires |txt| >= 13
    ensures |r| == |txt|
  {
    txt[12 := force(txt[12])]
  }

  /** The last pass: count parity once more, strip it, print. */
  function Finish<B(!new), W(!new)>(code: Code<B, W>, strip: B -> B, txt: seq<B>): Outcome<B> {
    if EvenPlaces(code, txt) != [] then ParityProblem else Printed(Strip(strip, txt))
  }

  // ----- fixdberr: two bits of one byte, tried in the order 64 * byte + 8 * bit + other bit

  predicate DoubleHit<B(!new), W(!new,==)>(code: Code<B, W>, n: nat, crc: W, m: nat)
    requires m < 64 * n
  {
    var k, i, j := m / 64, m / 8 % 8, m % 8;
    i != j && code.addW(code.addW(crc, code.Syndrome(i, n + 1 - k)), code.Syndrome(j, n + 1 - k)) == code.zeroW
  }

  function FirstDouble<B(!new), W(!new,==)>(code: Code<B, W>, n: nat, crc: W, m: nat): (r: Option<nat>)
    requires m <= 64 * n
    ensures r.Some? ==> r.value < 64 * n
    decreases 64 * n - m
  {
    if m == 64 * n then None else if DoubleHit(code, n, crc, m) then Some(m) else FirstDouble(code, n, crc, m + 1)
  }

  lemma {:induction false} FirstDoubleIsFirst<B(!new), W(!new)>(code: Code<B, W>, n: nat, crc: W, m: nat)
    requires m <= 64 * n
    ensures match FirstDouble(code, n, crc, m)
            case Some(k) =>
              m <= k && DoubleHit(code, n, crc, k) && forall l :: m <= l < k ==> !DoubleHit(code, n, crc, l)
            case None => forall l :: m <= l < 64 * n ==> !DoubleHit(code, n, crc, l)
    decreases 64 * n - m
  {
    if m < 64 * n && !DoubleHit(code, n, crc, m) {
      FirstDoubleIsFirst(code, n, crc, m + 1);
    }
  }

  function FlipDouble<B(!new), W(!new)>(code: Code<B, W>, txt: seq<B>, m: nat): (r: seq<B>)
    requires m < 64 * |txt|
    ensures |r| == |txt|
  {
    code.FlipIn(code.FlipIn(txt, m / 64, m / 8 % 8), m / 64, m % 8)
  }

  /** The text after fixdberr, if it reports success. */
  function FixDouble<B(!new), W(!new,==)>(code: Code<B, W>, txt: seq<B>, crc: W): Option<seq<B>> {
    if IsTailBit(code, crc) then Some(txt) else
    match FirstDouble(code, |txt|, crc, 0)
    case None => None
    case Some(m) => Some(FlipDouble(code, txt, m))
  }

  /** The repair of a text with bytes of even parity.  Without verbose, a block just repaired goes through
      fixdberr as well, with the check word it had before. */
  function Corrected<B(!new), W(!new,==)>(code: Code<B, W>, verbose: bool, t: seq<B>, crc: W): Option<seq<B>> {
    var places := EvenPlaces(code, t);
    match Repair(code, |t|, crc, places)
    case None => None
    case Some(bits) =>
      AllFlipsAreLegal(code, |t|, crc, places);
      var r := FlipAll(code, t, places, bits);
      if verbose || crc == code.zeroW then Some(r) else FixDouble(code, r, crc)
  }

  function Finished<B(!new), W(!new,==)>(code: Code<B, W>, strip: B -> B, verbose: bool, t: seq<B>,
                                         crc: W): Outcome<B>
  {
    if EvenPlaces(code, t) == [] then Finish(code, strip, t) else
    match Corrected(code, verbose, t, crc)
    case None => NotFixed
    case Some(r) => Finish(code, strip, r)
  }

  /** processBlock once byte 12 has been forced. */
  function ProcessForced<B(!new), W(!new,==)>(code: Code<B, W>, strip: B -> B, verbose: bool, t: seq<B>,
                                              tail: seq<B>): Outcome<B>
  {
    if |EvenPlaces(code, t)| > Framing.MAXPERR then TooManyEven
    else Finished(code, strip, verbose, t, code.Check(code.zeroW, t + tail))
  }

  /** processBlock */
  function ProcessBlock<B(!new), W(!new,==)>(code: Code<B, W>, force: B -> B, strip: B -> B, verbose: bool,
                                             txt: seq<B>, tail: seq<B>): Outcome<B>
  {
    if |txt| < 13 then TooShort else ProcessForced(code, strip, verbose, Forced(force, txt), tail)
  }

  // ----- the end of the table

  /** fixdberr is reached: the decoder is quiet and a repair of a wrong check word has been found. */
  predicate Doubles<B(!new), W(!new,==)>(code: Code<B, W>, verbose: bool, n: nat, crc: W, places: seq<nat>)
    requires Below(places, n)
  {
    !verbose && crc != code.zeroW && Repair(code, n, crc, places).Some?
  }

  /** When a row behind the table is read, see TableUse.AskedBeyondIff: for a text of 241 bytes, some but not too many
      of them of even parity, because of the first one, or else of a repair that is followed by fixdberr. */
  predicate AsksBeyond<B(!new), W(!new,==)>(code: Code<B, W>, verbose: bool, t: seq<B>, crc: W) {
    var places := EvenPlaces(code, t);
    && |t| == ROWS - 1 && 1 <= |places| <= Framing.MAXPERR
    && (!code.OddB(t[0]) || (Doubles(code, verbose, |t|, crc, places) && !IsTailBit(code, crc)))
  }

  lemma AllFlipsAreLegal<B(!new), W(!new)>(code: Code<B, W>, n: nat, crc: W, places: seq<nat>)
    requires Below(places, n)
    ensures Repair(code, n, crc, places).Some? ==> Choice(places, Repair(code, n, crc, places).value)
  {
    RepairIsComplete(code, n, crc, places);
  }

  // ----- parity after repair

  lemma FlipChangesParity<B(!new), W(!new)>(code: Code<B, W>, b: B, i: nat)
    requires code.Lawful() && i < 8
    ensures code.OddB(code.Flip(b, i)) <==> !code.OddB(b)
  {
    assert code.EmbedIsLinear(b, code.unit(i));
    code.SumParity(code.embed(b), code.embed(code.unit(i)), code.width);
    code.UnitIsOdd(i, code.width);
  }

  /** Flipping one bit in each byte of even parity leaves no byte of even parity. */
  lemma RepairedTextIsOdd<B(!new), W(!new)>(code: Code<B, W>, txt: seq<B>, bits: seq<nat>)
    requires code.Lawful() && Choice(EvenPlaces(code, txt), bits)
    ensures EvenPlaces(code, FlipAll(code, txt, EvenPlaces(code, txt), bits)) == []
  {
    var places := EvenPlaces(code, txt);
    var r := FlipAll(code, txt, places, bits);
    forall k | 0 <= k < |txt|
      ensures code.OddB(r[k])
    {
      FlipAllAt(code, txt, places, bits, k);
      if k in places {
        var j :| 0 <= j < |places| && places[j] == k;
        FlipChangesParity(code, txt[k], bits[j]);
      }
    }
    NoEvenPlaces(code, r);
  }

  lemma NoEvenPlaces<B(!new), W(!new)>(code: Code<B, W>, txt: seq<B>)
    ensures EvenPlaces(code, txt) == [] <==> AllOdd(code, txt)
  {
    var places := EvenPlaces(code, txt);
    if places != [] {
      assert !code.OddB(txt[places[0]]);
    }
  }

  /** Two distinct bits flipped in one byte leave all parities as they were. */
  lemma DoubleKeepsParity<B(!new), W(!new)>(code: Code<B, W>, txt: seq<B>, m: nat)
    requires code.Lawful() && m < 64 * |txt| && AllOdd(code, txt)
    ensures AllOdd(code, FlipDouble(code, txt, m))
  {
    var k, i, j := m / 64, m / 8 % 8, m % 8;
    FlipChangesParity(code, txt[k], i);
    FlipChangesParity(code, code.Flip(txt[k], i), j);
  }

  lemma FixDoubleKeepsParity<B(!new), W(!new)>(code: Code<B, W>, r: seq<B>, crc: W)
    requires code.Lawful() && EvenPlaces(code, r) == []
    ensures match FixDouble(code, r, crc) case None => true case Some(q) => EvenPlaces(code, q) == []
  {
    NoEvenPlaces(code, r);
    match FirstDouble(code, |r|, crc, 0)
    case None =>
    case Some(m) =>
      DoubleKeepsParity(code, r, m);
      NoEvenPlaces(code, FlipDouble(code, r, m));
  }

  lemma CorrectedIsOdd<B(!new), W(!new)>(code: Code<B, W>, verbose: bool, t: seq<B>, crc: W)
    requires code.Lawful()
    ensures match Corrected(code, verbose, t, crc) case None => true case Some(q) => EvenPlaces(code, q) == []
  {
    var places := EvenPlaces(code, t);
    AllFlipsAreLegal(code, |t|, crc, places);
    match Repair(code, |t|, crc, places)
    case None =>
    case Some(bits) =>
      RepairedTextIsOdd(code, t, bits);
      FixDoubleKeepsParity(code, FlipAll(code, t, places, bits), crc);
  }

  /** The second parity count of processBlock never finds anything, verbose or not. */
  lemma ParityProblemNeverHappens<B(!new), W(!new)>(code: Code<B, W>, force: B -> B, strip: B -> B, verbose: bool,
                                                    txt: seq<B>, tail: seq<B>)
    requires code.Lawful()
    ensures ProcessBlock(code, force, strip, verbose, txt, tail) != ParityProblem
  {
    if |txt| >= 13 {
      var t := Forced(force, txt);
      CorrectedIsOdd(code, verbose, t, code.Check(code.zeroW, t + tail));
    }
  }

  // ----- exactly when and what a verbose decoder prints

  /** A choice of one bit for each byte of even parity that makes the block a code word, up to one bit of
      the check bytes. */
  ghost predicate Mends<B(!new), W(!new)>(code: Code<B, W>, txt: seq<B>, tail: seq<B>, bits: seq<nat>)
    requires |tail| == 2
  {
    Choice(EvenPlaces(code, txt), bits) && NearCodeWord(code, FlipAll(code, txt, EvenPlaces(code, txt), bits), tail)
  }

  function Mended<B(!new), W(!new)>(code: Code<B, W>, strip: B -> B, txt: seq<B>, bits: seq<nat>): seq<B>
    requires Choice(EvenPlaces(code, txt), bits)
  {
    Strip(strip, FlipAll(code, txt, EvenPlaces(code, txt), bits))
  }

  lemma MendsIsRepairs<B(!new), W(!new)>(code: Code<B, W>, txt: seq<B>, tail: seq<B>, bits: seq<nat>)
    requires code.Lawful() && |tail| == 2
    ensures Mends(code, txt, tail, bits) <==>
            Repairs(code, |txt|, code.Check(code.zeroW, txt + tail), EvenPlaces(code, txt), bits)
  {
    var places := EvenPlaces(code, txt);
    if Choice(places, bits) {
      ResidueIsCheck(code, txt, tail, places, bits);
      AcceptableIsNear(code, FlipAll(code, txt, places, bits), tail);
    }
  }

  /** A verbose decoder prints a block of 13 bytes or more, whose repair stays within the table, exactly when it has no
      byte of even parity, or at most ten and some choice of one bit in each of them mends it; and what it prints is
      the forced text, so mended, without parity. */
  lemma PrintedExactlyWhen<B(!new), W(!new)>(code: Code<B, W>, force: B -> B, strip: B -> B, txt: seq<B>, tail: seq<B>)
    requires code.Lawful() && 13 <= |txt| < ROWS && |tail| == 2
    requires var t := Forced(force, txt); !AsksBeyond(code, true, t, code.Check(code.zeroW, t + tail))
    ensures var t := Forced(force, txt);
            var out := ProcessBlock(code, force, strip, true, txt, tail);
            && (AllOdd(code, t) ==> out == Printed(Strip(strip, t)))
            && (!AllOdd(code, t) ==>
                  (out.Printed? <==>
                     |EvenPlaces(code, t)| <= 10 && exists bits :: Mends(code, t, tail, bits))
                  && (out.Printed? ==>
                        exists bits :: Mends(code, t, tail, bits) && out.text == Mended(code, strip, t, bits)))
  {
    var t := Forced(force, txt);
    var places := EvenPlaces(code, t);
    var crc := code.Check(code.zeroW, t + tail);
    NoEvenPlaces(code, t);
    RepairIsComplete(code, |t|, crc, places);
    match Repair(code, |t|, crc, places)
    case None =>
      forall bits
        ensures !Mends(code, t, tail, bits)
      {
        MendsIsRepairs(code, t, tail, bits);
      }
    case Some(bits) =>
      MendsIsRepairs(code, t, tail, bits);
      RepairedTextIsOdd(code, t, bits);
  }

  // ----- one flipped bit

  /** A block as it is sent: every byte of odd parity, the check word right, byte 12 one that forcing keeps. */
  ghost predicate Sent<B(!new), W(!new)>(code: Code<B, W>, force: B -> B, txt: seq<B>, tail: seq<B>) {
    && |txt| >= 13 && |tail| == 2 && AllOdd(code, txt)
    && code.Check(code.zeroW, txt + tail) == code.zeroW
    && force(txt[12]) == txt[12]
    && forall i :: 0 <= i < 8 ==> force(code.Flip(txt[12], i)) in {txt[12], code.Flip(txt[12], i)}
  }

  lemma FlipBack<B(!new), W(!new)>(code: Code<B, W>, txt: seq<B>, k: nat, i: nat)
    requires code.Lawful() && k < |txt|
    ensures code.FlipIn(code.FlipIn(txt, k, i), k, i) == txt
  {
    assert code.BytesCancel(txt[k], code.unit(i));
  }

  lemma OnlyPlace(places: seq<nat>, n: nat, k: nat)
    requires Increasing(places, n) && k in places
    requires |places| > 0 ==> places[0] == k
    requires |places| > 1 ==> places[1] == k
    ensures places == [k]
  {
  }

  lemma OneEvenPlace<B(!new), W(!new)>(code: Code<B, W>, txt: seq<B>, k: nat, i: nat)
    requires code.Lawful() && AllOdd(code, txt) && k < |txt| && i < 8
    ensures EvenPlaces(code, code.FlipIn(txt, k, i)) == [k]
  {
    var t := code.FlipIn(txt, k, i);
    var places := EvenPlaces(code, t);
    FlipChangesParity(code, txt[k], i);
    assert !code.OddB(t[k]);
    assert k in places;
    OnlyPlace(places, |txt|, k);
  }

  /** The search stops at the right bit: every bit tried before leaves a residue of even weight, not zero,
      and the acceptable residues other than zero have odd weight. */
  lemma {:induction false} SearchFindsBit<B(!new), W(!new)>(code: Code<B, W>, n: nat, k: nat, i: nat, j: nat)
    requires code.Lawful() && k < n && j <= i < 8
    ensures RepairFrom(code, n, code.Syndrome(i, n + 1 - k), [k], j) == Some([i])
    decreases i - j
  {
    var s, s' := code.Syndrome(i, n + 1 - k), code.Syndrome(j, n + 1 - k);
    assert [k][1..] == [];
    code.SumIsZero(s, s');
    if j == i {
      assert Repair(code, n, code.zeroW, []) == Some([]);
      assert [i] + [] == [i];
    } else {
      code.SyndromesDiffer(i, j, n + 1 - k);
      code.SyndromeIsOdd(i, n + 1 - k);
      code.SyndromeIsOdd(j, n + 1 - k);
      code.SumParity(s, s', code.width);
      if IsTailBit(code, code.addW(s, s')) {
        var m: nat :| m < 16 && TailSyndrome(code, m) == code.addW(s, s');
        code.SyndromeIsOdd(m % 8, m / 8);
      }
      assert Repair(code, n, code.addW(s, s'), []) == None;
      SearchFindsBit(code, n, k, i, j + 1);
    }
  }

  /** The check word of a sent block with one text bit flipped is the syndrome of that bit. */
  lemma FlippedCheck<B(!new), W(!new)>(code: Code<B, W>, txt: seq<B>, tail: seq<B>, k: nat, i: nat)
    requires code.Lawful() && |tail| == 2 && k < |txt| && code.Check(code.zeroW, txt + tail) == code.zeroW
    ensures code.Check(code.zeroW, code.FlipIn(txt, k, i) + tail) == code.Syndrome(i, |txt| + 1 - k)
  {
    code.FlipAddsSyndrome(code.zeroW, txt + tail, k, i);
    assert code.FlipIn(txt + tail, k, i) == code.FlipIn(txt, k, i) + tail;
    var s := code.Syndrome(i, |txt| + 1 - k);
    assert code.WordsCommute(code.zeroW, s) && code.WordsCancel(s);
  }

  lemma SingleRepair<B(!new), W(!new)>(code: Code<B, W>, txt: seq<B>, k: nat, i: nat)
    requires code.Lawful() && k < |txt| && i < 8
    ensures Repair(code, |txt|, code.Syndrome(i, |txt| + 1 - k), [k]) == Some([i])
    ensures FlipAll(code, code.FlipIn(txt, k, i), [k], [i]) == txt
  {
    SearchFindsBit(code, |txt|, k, i, 0);
    FlipBack(code, txt, k, i);
    assert [k][1..] == [] && [i][1..] == [];
  }

  /** What becomes of a block with one byte of even parity that can be repaired. */
  lemma AfterOneRepair<B(!new), W(!new)>(code: Code<B, W>, strip: B -> B, verbose: bool, t: seq<B>, tail: seq<B>,
                                         txt: seq<B>, k: nat, i: nat, crc: W)
    requires EvenPlaces(code, t) == [k] && k < |t| && i < 8 && crc == code.Check(code.zeroW, t + tail)
    requires Repair(code, |t|, crc, [k]) == Some([i]) && FlipAll(code, t, [k], [i]) == txt
    ensures ProcessForced(code, strip, verbose, t, tail)
         == if verbose || crc == code.zeroW then Finish(code, strip, txt) else
            match FixDouble(code, txt, crc)
            case None => NotFixed
            case Some(r) => Finish(code, strip, r)
  {
  }

  lemma HitBlock<B(!new), W(!new)>(code: Code<B, W>, strip: B -> B, verbose: bool, txt: seq<B>, tail: seq<B>,
                                   k: nat, i: nat, t: seq<B>, crc: W)
    requires code.Lawful() && |tail| == 2 && AllOdd(code, txt) && code.Check(code.zeroW, txt + tail) == code.zeroW
    requires k < |txt| && i < 8 && t == code.FlipIn(txt, k, i) && crc == code.Syndrome(i, |txt| + 1 - k)
    ensures ProcessForced(code, strip, verbose, t, tail)
         == if verbose || crc == code.zeroW then Finish(code, strip, txt) else
            match FixDouble(code, txt, crc)
            case None => NotFixed
            case Some(r) => Finish(code, strip, r)
  {
    OneEvenPlace(code, txt, k, i);
    FlippedCheck(code, txt, tail, k, i);
    SingleRepair(code, txt, k, i);
    AfterOneRepair(code, strip, verbose, t, tail, txt, k, i, crc);
  }

  /** One bit of the text received wrong, not in the first byte of a text of 241: the decoder prints the text that was
      sent. */
  lemma TextBitIsCorrected<B(!new), W(!new)>(code: Code<B, W>, force: B -> B, strip: B -> B,
                                             txt: seq<B>, tail: seq<B>, k: nat, i: nat)
    requires code.Lawful() && Sent(code, force, txt, tail) && k < |txt| <= k + 240 && i < 8
    ensures ProcessBlock(code, force, strip, true, code.FlipIn(txt, k, i), tail) == Printed(Strip(strip, txt))
  {
    var received := code.FlipIn(txt, k, i);
    var t := Forced(force, received);
    NoEvenPlaces(code, txt);
    if t != txt {
      assert t == received;
      HitBlock(code, strip, true, txt, tail, k, i, received, code.Syndrome(i, |txt| + 1 - k));
    }
  }

  /** One bit of the check bytes received wrong, or none at all: the text is printed as it was sent. */
  lemma TailDoesNotMatter<B(!new), W(!new)>(code: Code<B, W>, force: B -> B, strip: B -> B, verbose: bool,
                                            txt: seq<B>, tail: seq<B>, received: seq<B>)
    requires code.Lawful() && Sent(code, force, txt, tail)
    ensures ProcessBlock(code, force, strip, verbose, txt, received) == Printed(Strip(strip, txt))
  {
    NoEvenPlaces(code, txt);
    assert Forced(force, txt) == txt;
  }

  /** Two bits of one byte received wrong: parity shows nothing, the check word is not asked, and the wrong
      text is printed. */
  lemma DoubleErrorIsPrinted<B(!new), W(!new)>(code: Code<B, W>, force: B -> B, strip: B -> B, verbose: bool,
                                               txt: seq<B>, tail: seq<B>, m: nat)
    requires code.Lawful() && Sent(code, force, txt, tail) && m < 64 * |txt| && m / 64 != 12
    ensures var wrong := FlipDouble(code, txt, m);
            ProcessBlock(code, force, strip, verbose, wrong, tail) == Printed(Strip(strip, wrong))
  {
    var wrong := FlipDouble(code, txt, m);
    DoubleKeepsParity(code, txt, m);
    NoEvenPlaces(code, wrong);
    assert Forced(force, wrong) == wrong;
  }

  // ----- without verbose

  /** Without verbose the repair is undone by the call of fixdberr: a sent block with one text bit wrong
      (and not forced right) is printed only if its syndrome happens to be that of a check bit. */
  lemma QuietDecoderDropsRepairs<B(!new), W(!new)>(code: Code<B, W>, force: B -> B, strip: B -> B,
                                                   txt: seq<B>, tail: seq<B>, k: nat, i: nat)
    requires code.Lawful() && Sent(code, force, txt, tail) && k < |txt| <= 240 && i < 8
    requires Forced(force, code.FlipIn(txt, k, i)) != txt
    ensures ProcessBlock(code, force, strip, false, code.FlipIn(txt, k, i), tail)
         == if IsTailBit(code, code.Syndrome(i, |txt| + 1 - k)) then Printed(Strip(strip, txt)) else NotFixed
  {
    var received := code.FlipIn(txt, k, i);
    var crc := code.Syndrome(i, |txt| + 1 - k);
    assert Forced(force, received) == received;
    HitBlock(code, strip, false, txt, tail, k, i, received, crc);
    NoEvenPlaces(code, txt);
    code.SyndromeIsOdd(i, |txt| + 1 - k);
    NoDoubleForOdd(code, |txt|, crc);
  }

  /** Two syndromes cannot add up to a check word of odd weight. */
  lemma NoDoubleForOdd<B(!new), W(!new)>(code: Code<B, W>, n: nat, crc: W)
    requires code.Lawful() && code.OddW(crc)
    ensures crc != code.zeroW && FirstDouble(code, n, crc, 0) == None
  {
    code.ZeroIsEven(code.width);
    FirstDoubleIsFirst(code, n, crc, 0);
    forall m: nat | m < 64 * n
      ensures !DoubleHit(code, n, crc, m)
    {
      var s, s' := code.Syndrome(m / 8 % 8, n + 1 - m / 64), code.Syndrome(m % 8, n + 1 - m / 64);
      code.SyndromeIsOdd(m / 8 % 8, n + 1 - m / 64);
      code.SyndromeIsOdd(m % 8, n + 1 - m / 64);
      code.SumParity(crc, s, code.width);
      code.SumParity(code.addW(crc, s), s', code.width);
      code.ZeroIsEven(code.width);
    }
  }
}
