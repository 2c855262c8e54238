/** ACARS: the decoder with the bytes, check words and tables it is built with (acars-decoder.cpp, syndrom.h). */
module Acars {
  import opened AcarsDecoder
  import opened AirLine
  import opened BlockRecovery
  import opened Crc
  import opened Framing
  import opened LinearCode
  import opened Reception
  import opened Recovery
  import opened Signal
  import opened TableUse

  const STX: Byte := 0x02

  /** Byte 12 keeps what STX and ETX differ in and gets what they share. */
  function Force(b: Byte): Byte {
    (b & 0x83) | 0x02
  }

  function StripParity(b: Byte): Byte {
    b & 0x7f
  }

  lemma ForceKeepsMarks(b: Byte, m: Byte, c: Byte)
    requires b == 0x02 || b == 0x83
    requires m in {0x01, 0x02, 0x04, 0x08, 0x10, 0x20, 0x40, 0x80} && c == b ^ m
    ensures (b & 0x83) | 0x02 == b
    ensures (c & 0x83) | 0x02 == if m == 0x01 || m == 0x80 then c else b
  {
  }

  /** STX and ETX survive forcing, and of one wrong bit in either of them it mends every one but the first and the last,
      in which the two differ. */
  lemma MarksSurvive(b: Byte, i: nat)
    requires b == 0x02 || b == 0x83
    requires i < 8
    ensures Force(b) == b
    ensures Force(ACARS.Flip(b, i)) == if i == 0 || i == 7 then ACARS.Flip(b, i) else b
  {
    ForceKeepsMarks(b, Bit(i), XorBytes(b, Bit(i)));
  }

  lemma DleBits()
    ensures LowBit(0x1) && Half(0x1) == 0 && LowBit(0x3) && Half(0x3) == 0x1 && LowBit(0x7) && Half(0x7) == 0x3
    ensures LowBit(0xf) && Half(0xf) == 0x7 && LowBit(0x1f) && Half(0x1f) == 0xf && LowBit(0x3f) && Half(0x3f) == 0x1f
    ensures LowBit(0x7f) && Half(0x7f) == 0x3f
  {
  }

  lemma NothingIsEven(n: nat)
    ensures !ACARS.OddLow(0, n)
  {
    AcarsIsLawful();
    ACARS.ZeroIsEven(n);
  }

  lemma DleIsOdd()
    ensures OddParity(DLE)
  {
    DleBits();
    NothingIsEven(9);
    NextBit(0x1, 10, true, 0);
    NextBit(0x3, 11, true, 0x1);
    NextBit(0x7, 12, true, 0x3);
    NextBit(0xf, 13, true, 0x7);
    NextBit(0x1f, 14, true, 0xf);
    NextBit(0x3f, 15, true, 0x1f);
    NextBit(0x7f, 16, true, 0x3f);
  }

  lemma AcarsIsConsistent()
    ensures Consistent(ACARS, AIR)
  {
    AcarsIsLawful();
    AirIsLawful();
    DleIsOdd();
  }

  /** A block as ACARS sends it: 13 bytes at least, odd parity, STX or ETX at byte 12, the check word zero. */
  ghost predicate IsSent(txt: seq<Byte>, c0: Byte, c1: Byte) {
    && |txt| >= 13 && AllOdd(ACARS, txt) && (txt[12] == STX || txt[12] == ETX)
    && ACARS.Check(0, txt + [c0, c1]) == 0
  }

  lemma IsSentIsSent(txt: seq<Byte>, c0: Byte, c1: Byte)
    requires IsSent(txt, c0, c1)
    ensures Sent(ACARS, Force, txt, [c0, c1])
  {
    forall i: nat | i < 8
      ensures Force(txt[12]) == txt[12] && Force(ACARS.Flip(txt[12], i)) in {txt[12], ACARS.Flip(txt[12], i)}
    {
      MarksSurvive(txt[12], i);
    }
    MarksSurvive(txt[12], 0);
  }

  /** Single bit correction: whichever text bit of a sent block is received wrong, if the table covers it, a verbose
      decoder prints the text that was sent. */
  lemma SingleBitIsCorrected(txt: seq<Byte>, c0: Byte, c1: Byte, k: nat, i: nat)
    requires IsSent(txt, c0, c1) && k < |txt| <= k + 240 && i < 8
    ensures ProcessBlock(ACARS, Force, StripParity, true, ACARS.FlipIn(txt, k, i), [c0, c1])
         == Printed(Strip(StripParity, txt))
  {
    AcarsIsLawful();
    IsSentIsSent(txt, c0, c1);
    TextBitIsCorrected(ACARS, Force, StripParity, txt, [c0, c1], k, i);
  }

  /** Without verbose no such block of up to 240 bytes is printed: the repair is undone for every text bit that the
      forcing does not mend. */
  lemma QuietDecoderDropsAll(txt: seq<Byte>, c0: Byte, c1: Byte, k: nat, i: nat)
    requires IsSent(txt, c0, c1) && k < |txt| <= 240 && i < 8
    requires Forced(Force, ACARS.FlipIn(txt, k, i)) != txt
    ensures ProcessBlock(ACARS, Force, StripParity, false, ACARS.FlipIn(txt, k, i), [c0, c1]) == NotFixed
  {
    AcarsIsLawful();
    IsSentIsSent(txt, c0, c1);
    QuietDecoderDropsRepairs(ACARS, Force, StripParity, txt, [c0, c1], k, i);
    TextBitIsNoCheckBit(i, |txt| + 1 - k);
  }

  /** Of the blocks of 241 bytes, those with the first byte hit are not covered, and for a quiet decoder none. */
  lemma HitIsCovered(txt: seq<Byte>, c0: Byte, c1: Byte, k: nat, i: nat, verbose: bool, t: seq<Byte>)
    requires IsSent(txt, c0, c1) && k < |txt| < ROWS && i < 8 && t == Forced(Force, ACARS.FlipIn(txt, k, i)) != txt
    ensures ROWS in BlockRows(ACARS, verbose, t, ACARS.Check(0, t + [c0, c1])) <==> |txt| == 241 && (k == 0 || !verbose)
  {
    AcarsIsLawful();
    IsSentIsSent(txt, c0, c1);
    HitAsksBeyondIff(ACARS, Force, verbose, txt, [c0, c1], k, i, t);
    if k > 0 {
      TextBitIsNoCheckBit(i, |txt| + 1 - k);
    }
  }

  ghost predicate IsProper(x: Frame<Byte>) {
    AIR.Fine(x) && IsSent(x.text + [x.term], x.c0, x.c1)
  }

  /** From the bits of a whole sequence of transmissions to the printed messages. */
  lemma AcarsIsFaithful(xs: seq<Frame<Byte>>, hits: seq<Hit>, ys: seq<Frame<Byte>>)
    requires |xs| == |hits| == |ys|
    requires forall k :: 0 <= k < |xs| ==>
             IsProper(xs[k]) && Possible(xs[k], hits[k]) && Arrives(ACARS, xs[k], hits[k], ys[k])
    requires AIR.Spaced(0, 0, false, ys)
    ensures AIR.Run(AIR.Fresh(), AIR.Stream(ys)).blocks == AIR.BlocksOf(ys)
    ensures PrintedOf(Processing(ACARS, Force, StripParity, true), AIR.BlocksOf(ys)) == Messages(StripParity, xs)
  {
    AcarsIsConsistent();
    forall k | 0 <= k < |xs|
      ensures Proper(ACARS, AIR, Force, xs[k])
    {
      IsSentIsSent(xs[k].text + [xs[k].term], xs[k].c0, xs[k].c1);
    }
    ReceptionIsFaithful(ACARS, AIR, Force, StripParity, xs, hits, ys);
  }

  /** From the points of the matched filter on: as long as none lies on the border, the toggling of MskS included. */
  lemma PointsAreRead(xs: seq<Frame<Byte>>, hits: seq<Hit>, ys: seq<Frame<Byte>>, vs: seq<Point>)
    requires |xs| == |hits| == |ys|
    requires forall k :: 0 <= k < |xs| ==>
               IsProper(xs[k]) && Possible(xs[k], hits[k]) && Arrives(ACARS, xs[k], hits[k], ys[k])
    requires AIR.Spaced(0, 0, false, ys) && OffBorder(0, vs) && RawBits(0, vs) == AIR.Stream(ys)
    ensures ProcessAll(AIR, Demod(AIR.Fresh(), 0), vs).framer.blocks == AIR.BlocksOf(ys)
    ensures PrintedOf(Processing(ACARS, Force, StripParity, true), AIR.BlocksOf(ys)) == Messages(StripParity, xs)
  {
    TogglingIsInversion(AIR, Demod(AIR.Fresh(), 0), 0, vs);
    AcarsIsFaithful(xs, hits, ys);
  }

  /** From points that turn by quarters: left for a bit like the one before, right for another. */
  lemma TurnsAreRead(xs: seq<Frame<Byte>>, hits: seq<Hit>, ys: seq<Frame<Byte>>, vs: seq<Point>)
    requires |xs| == |hits| == |ys|
    requires forall k :: 0 <= k < |xs| ==>
               IsProper(xs[k]) && Possible(xs[k], hits[k]) && Arrives(ACARS, xs[k], hits[k], ys[k])
    requires AIR.Spaced(0, 0, false, ys) && Carry(vs, AIR.Stream(ys))
    ensures OffBorder(0, vs) && RawBits(0, vs) == AIR.Stream(ys)
    ensures ProcessAll(AIR, Demod(AIR.Fresh(), 0), vs).framer.blocks == AIR.BlocksOf(ys)
    ensures PrintedOf(Processing(ACARS, Force, StripParity, true), AIR.BlocksOf(ys)) == Messages(StripParity, xs)
  {
    CarriedBitsAreDecided(vs, AIR.Stream(ys));
    PointsAreRead(xs, hits, ys, vs);
  }

  // ----- a block that the table is too short for

  /** 240 bytes of odd parity, but the first, and ETX. */
  function LongText(n: nat): (text: seq<Byte>)
    ensures |text| == n && forall k :: 0 <= k < n ==> text[k] == if k == 0 then 0x03 else 0x02
  {
    if n == 0 then [] else LongText(n - 1) + [if n == 1 then 0x03 else 0x02]
  }

  lemma MarkBits()
    ensures LowBit(0x1) && Half(0x1) == 0 && !LowBit(0x2) && Half(0x2) == 0x1 && LowBit(0x3) && Half(0x3) == 0x1
  {
  }

  lemma MarkParity()
    ensures OddParity(0x02) && !OddParity(0x03)
  {
    MarkBits();
    NothingIsEven(14);
    NextBit(0x1, 15, true, 0);
    NextBit(0x2, 16, false, 0x1);
    NextBit(0x3, 16, true, 0x1);
  }

  lemma LongFrameIsFine(x: Frame<Byte>)
    requires x.text == LongText(240) && x.term == ETX
    ensures AIR.Fine(x)
  {
    MarkParity();
    FewEvens(AIR, x.text, 0);
    forall j | 0 <= j < 240
      ensures !AIR.EndsText(x.text[j], j)
    {
    }
  }

  lemma LongBlock(txt: seq<Byte>)
    requires txt == LongText(240) + [ETX]
    ensures Forced(Force, txt) == txt && EvenPlaces(ACARS, txt) == [0]
  {
    MarkParity();
    TerminatorsAreOdd();
    ForceKeepsMarks(0x02, 0x01, 0x03);
    var places := EvenPlaces(ACARS, txt);
    assert !ACARS.OddB(txt[0]);
    assert 0 in places;
    OnlyPlace(places, 241, 0);
  }

  /** Such a frame is received like any other, in either polarity and with any check bytes, and then the repair asks
      for row 242 of a table that ends with row 241. */
  lemma LongFrameAsksBeyond(x: Frame<Byte>, verbose: bool)
    requires x.text == LongText(240) && x.term == ETX && AIR.BackToBack([x])
    ensures AIR.Fine(x)
    ensures AIR.Run(AIR.Fresh(), AIR.Stream([x])).blocks == [Block(x.text + [ETX], x.c0, x.c1)]
    ensures var t := Forced(Force, x.text + [ETX]);
            ROWS in BlockRows(ACARS, verbose, t, ACARS.Check(0, t + [x.c0, x.c1]))
  {
    var txt := x.text + [ETX];
    LongFrameIsFine(x);
    LongBlock(txt);
    AirIsLawful();
    AIR.WholeStreamIsRecovered([x]);
    assert [x][1..] == [];
    AskedBeyondIff(ACARS, verbose, txt, ACARS.Check(0, txt + [x.c0, x.c1]));
  }

  // ----- the object

  /** The 242 rows of syndrom. */
  method ReadTable() returns (t: seq<Word>)
    ensures IsSyndromeTable(ACARS, t)
  {
    t := [];
    var d := 0;
    while d < 242
      invariant 0 <= d <= 242 && |t| == 8 * d
      invariant forall i, e :: 0 <= i < 8 && 0 <= e < d ==> SyndromeEntry(ACARS, t, i, e)
    {
      var row := ReadRow(d);
      ghost var before := t;
      t := t + row;
      forall i, e | 0 <= i < 8 && 0 <= e < d + 1
        ensures SyndromeEntry(ACARS, t, i, e)
      {
        if e < d {
          assert SyndromeEntry(ACARS, before, i, e);
        }
      }
      d := d + 1;
    }
  }

  method ReadRow(d: nat) returns (row: seq<Word>)
    requires d < 242
    ensures |row| == 8 && forall i :: 0 <= i < 8 ==> row[i] == ACARS.Syndrome(i, d)
  {
    row := [];
    var i := 0;
    while i < 8
      invariant 0 <= i <= 8 && |row| == i
      invariant forall j :: 0 <= j < i ==> row[j] == ACARS.Syndrome(j, d)
    {
      var s := SyndromAt(i, d);
      row := row + [s];
      i := i + 1;
    }
  }

  /** A decoder with all that ACARS needs, before the first bit. */
  ghost predicate Ready(d: Decoder<Byte, Word>, verbose: bool)
    reads d, d.blkTxt, d.blkCrc
  {
    && d.code == ACARS && d.line == AIR && d.force == Force && d.strip == StripParity && d.verbose == verbose
    && d.out == Processing(ACARS, Force, StripParity, verbose) && d.Tracks(AIR.Fresh()) && d.mskS == 0
  }

  /** The decoder of radio.cpp, ready for the first bit. */
  method NewDecoder(verbose: bool) returns (d: Decoder<Byte, Word>)
    ensures fresh(d) && fresh(d.blkTxt) && fresh(d.blkCrc)
    ensures Ready(d, verbose)
  {
    var t := ReadTable();
    d := new Decoder(ACARS, AIR, Force, StripParity, t, verbose);
  }

  /** The block of a frame that was hit as Possible says stays within the table. */
  lemma BlockIsInTable(x: Frame<Byte>, hit: Hit, y: Frame<Byte>)
    requires IsProper(x) && Possible(x, hit) && Arrives(ACARS, x, hit, y)
    ensures InTable(ACARS, Force, true, AIR.BlockOf(y))
  {
    var b := AIR.BlockOf(y);
    assert (x.text + [x.term])[0] == x.text[0];
    assert |b.text| == 241 ==> Forced(Force, b.text)[0] == x.text[0];
  }

  /** All calls of process for a transmission: the messages that were sent are printed, in order. */
  method Receive(d: Decoder<Byte, Word>, vs: seq<Point>, ghost xs: seq<Frame<Byte>>, ghost hits: seq<Hit>,
                 ghost ys: seq<Frame<Byte>>)
    requires Ready(d, true) && |xs| == |hits| == |ys|
    requires forall k :: 0 <= k < |xs| ==>
               IsProper(xs[k]) && Possible(xs[k], hits[k]) && Arrives(ACARS, xs[k], hits[k], ys[k])
    requires AIR.Spaced(0, 0, false, ys) && OffBorder(0, vs) && RawBits(0, vs) == AIR.Stream(ys)
    modifies d, d.blkTxt, d.blkCrc
    ensures d.printed == Messages(StripParity, xs)
  {
    PointsAreRead(xs, hits, ys, vs);
    forall k | 0 <= k < |AIR.BlocksOf(ys)|
      ensures d.fits(AIR.BlocksOf(ys)[k])
    {
      AIR.BlocksOfAt(ys, k);
      BlockIsInTable(xs[k], hits[k], ys[k]);
      assert Handed(AIR.BlocksOf(ys)[k]);
    }
    ProcessPoints(d, vs, Demod(AIR.Fresh(), 0), AIR.BlocksOf(ys));
  }

  method ProcessPoints(d: Decoder<Byte, Word>, vs: seq<Point>, ghost start: Demod<Byte>, ghost blocks: seq<Block<Byte>>)
    requires d.line == AIR && d.Tracks(start.framer) && d.mskS == start.mskS
    requires ProcessAll(AIR, start, vs).framer.blocks == blocks && forall k :: 0 <= k < |blocks| ==> d.fits(blocks[k])
    modifies d, d.blkTxt, d.blkCrc
    ensures d.printed == PrintedOf(d.out, blocks)
  {
    var i := 0;
    ghost var e := start;
    while i < |vs|
      invariant 0 <= i <= |vs| && d.Tracks(e.framer) && d.mskS == e.mskS
      invariant ProcessAll(AIR, e, vs[i..]).framer.blocks == blocks
    {
      ghost var next := Signal.Process(AIR, e, vs[i]);
      assert vs[i..][1..] == vs[i + 1..];
      BlocksStay(AIR, next, vs[i + 1..]);
      d.Process(vs[i], e);
      e := next;
      i := i + 1;
    }
  }
}
