/** The ACARS check word as a linear code: bytes and 16-bit words under exclusive or, the generator
    x^16 + x^12 + x^5 + 1 with its bits reflected, and the tables of syndrom.h. */
module Crc {
  import opened LinearCode
  import opened Recovery
  import opened SyndromeTable

  type Byte = bv8
  type Word = bv16

  function Bit(i: nat): Byte {
    match i
    case 0 => 0x01 case 1 => 0x02 case 2 => 0x04 case 3 => 0x08
    case 4 => 0x10 case 5 => 0x20 case 6 => 0x40 case 7 => 0x80
    case _ => 0
  }

  function XorBytes(b: Byte, c: Byte): Byte {
    b ^ c
  }

  function XorWords(x: Word, y: Word): Word {
    x ^ y
  }

  function ToWord(b: Byte): Word {
    b as Word
  }

  predicate LowBit(x: Word) {
    x & 1 == 1
  }

  function Half(x: Word): Word {
    x >> 1
  }

  const ACARS: Code<Byte, Word> :=
    Code(0, XorBytes, Bit, ToWord, 0, XorWords, LowBit, Half, 16, 0x8408)

  // ----- the laws

  lemma HalvingLaws(x: Word, y: Word)
    ensures Half(XorWords(x, y)) == XorWords(Half(x), Half(y))
    ensures LowBit(XorWords(x, y)) <==> LowBit(x) != LowBit(y)
  {
  }

  lemma HalvesDecide(x: Word, y: Word)
    requires LowBit(x) == LowBit(y) && Half(x) == Half(y)
    ensures x == y
  {
  }

  lemma GeneratorShows(x: Word, y: Word)
    ensures Half(x) != XorWords(Half(y), 0x8408)
  {
  }

  function Ones(n: nat): Word {
    match n
    case 0 => 0 case 1 => 0x1 case 2 => 0x3 case 3 => 0x7 case 4 => 0xf case 5 => 0x1f
    case 6 => 0x3f case 7 => 0x7f case 8 => 0xff case 9 => 0x1ff case 10 => 0x3ff case 11 => 0x7ff
    case 12 => 0xfff case 13 => 0x1fff case 14 => 0x3fff case 15 => 0x7fff case _ => 0xffff
  }

  predicate Fits(x: Word, n: nat) {
    x <= Ones(n)
  }

  lemma HalfFits(x: Word, n: nat)
    requires 0 < n <= 16 && Fits(x, n)
    ensures Fits(Half(x), n - 1)
  {
    match n
    case 1 => case 2 => case 3 => case 4 => case 5 => case 6 => case 7 => case 8 =>
    case 9 => case 10 => case 11 => case 12 => case 13 => case 14 => case 15 => case _ =>
  }

  lemma AllFit(x: Word)
    ensures Fits(x, 16) && (Fits(x, 0) ==> x == 0)
  {
  }

  lemma WordsAreNarrow(x: Word)
    ensures ACARS.WordsAreNarrow(x)
  {
    forall y {
      AllFit(y);
    }
    forall y, k: nat | 0 < k <= 16 && Fits(y, k)
      ensures Fits(Half(y), k - 1)
    {
      HalfFits(y, k);
    }
    ACARS.NarrowWordVanishes(Fits, x, 16);
  }

  lemma GeneratorIsOdd()
    ensures ACARS.OddW(0x8408)
  {
    assert ACARS.OddLow(0x1, 1);
    assert ACARS.OddLow(0x2, 2);
    assert ACARS.OddLow(0x4, 3);
    assert ACARS.OddLow(0x8, 4);
    assert ACARS.OddLow(0x10, 5);
    assert !ACARS.OddLow(0x21, 6);
    assert !ACARS.OddLow(0x42, 7);
    assert !ACARS.OddLow(0x84, 8);
    assert !ACARS.OddLow(0x108, 9);
    assert !ACARS.OddLow(0x210, 10);
    assert !ACARS.OddLow(0x420, 11);
    assert !ACARS.OddLow(0x840, 12);
    assert ACARS.OddLow(0x1081, 13);
    assert ACARS.OddLow(0x2102, 14);
    assert ACARS.OddLow(0x4204, 15);
  }

  lemma UnitsStep(i: nat)
    ensures ACARS.UnitsStep(i)
  {
    match i
    case 0 => case 1 => case 2 => case 3 => case 4 => case 5 => case 6 => case 7 =>
    case _ =>
  }

  lemma XorIsAssociative(x: Word, y: Word, z: Word, xy: Word, yz: Word)
    requires xy == x ^ y && yz == y ^ z
    ensures xy ^ z == x ^ yz
  {
  }

  lemma XorWordsAssociates(x: Word, y: Word, z: Word)
    ensures XorWords(XorWords(x, y), z) == XorWords(x, XorWords(y, z))
  {
    XorIsAssociative(x, y, z, XorWords(x, y), XorWords(y, z));
  }

  lemma WordsAssociate()
    ensures forall x, y, z :: ACARS.WordsAssociate(x, y, z)
  {
    forall x: Word, y: Word, z: Word
      ensures ACARS.WordsAssociate(x, y, z)
    {
      XorWordsAssociates(x, y, z);
    }
  }

  lemma WordsCommuteAndCancel()
    ensures forall x, y :: ACARS.WordsCommute(x, y)
    ensures forall x :: ACARS.WordsCancel(x)
  {
  }

  lemma BytesCancelAndEmbed()
    ensures forall b, c :: ACARS.BytesCancel(b, c)
    ensures forall b, c :: ACARS.EmbedIsLinear(b, c)
  {
  }

  lemma HalvingIsLinear()
    ensures forall x, y :: ACARS.HalvingIsLinear(x, y)
  {
    forall x, y
      ensures ACARS.HalvingIsLinear(x, y)
    {
      HalvingLaws(x, y);
    }
  }

  lemma HalvingLosesNothing()
    ensures forall x, y :: ACARS.HalvingLosesNothing(x, y)
  {
    forall x, y
      ensures ACARS.HalvingLosesNothing(x, y)
    {
      if LowBit(x) == LowBit(y) && Half(x) == Half(y) {
        HalvesDecide(x, y);
      }
    }
  }

  lemma GeneratorAlwaysShows()
    ensures forall x, y :: ACARS.GeneratorShows(x, y)
  {
    forall x, y
      ensures ACARS.GeneratorShows(x, y)
    {
      GeneratorShows(x, y);
    }
  }

  /** The ACARS check word obeys every law LinearCode reasons from. */
  lemma AcarsIsLawful()
    ensures ACARS.Lawful()
  {
    GeneratorIsOdd();
    BytesCancelAndEmbed();
    WordsAssociate();
    WordsCommuteAndCancel();
    HalvingIsLinear();
    HalvingLosesNothing();
    GeneratorAlwaysShows();
    forall x {
      WordsAreNarrow(x);
    }
    forall i {
      UnitsStep(i);
    }
  }

  // ----- the tables

  lemma ShiftIsShift(x: Word)
    ensures Shift(x) == ACARS.Shift(x)
  {
    if x & 1 == 1 {
    } else {
      assert x & 1 == 0;
    }
  }

  lemma Shift8IsShifts(x: Word)
    ensures Shift8(x) == ACARS.Shifts(x, 8)
  {
    var x1 := Shift(x);
    var x2 := Shift(x1);
    var x3 := Shift(x2);
    var x4 := Shift(x3);
    var x5 := Shift(x4);
    var x6 := Shift(x5);
    var x7 := Shift(x6);
    ShiftIsShift(x);
    ShiftIsShift(x1);
    ShiftIsShift(x2);
    ShiftIsShift(x3);
    ShiftIsShift(x4);
    ShiftIsShift(x5);
    ShiftIsShift(x6);
    ShiftIsShift(x7);
    assert ACARS.Shifts(x, 1) == x1;
    assert ACARS.Shifts(x, 2) == x2;
    assert ACARS.Shifts(x, 3) == x3;
    assert ACARS.Shifts(x, 4) == x4;
    assert ACARS.Shifts(x, 5) == x5;
    assert ACARS.Shifts(x, 6) == x6;
    assert ACARS.Shifts(x, 7) == x7;
  }

  lemma {:induction false} PowerIsShifts(n: nat)
    ensures Power(n) == ACARS.Shifts(1, n)
  {
    if n > 0 {
      PowerIsShifts(n - 1);
      ShiftIsShift(Power(n - 1));
    }
  }

  lemma HighHalfMovesDown(x: Word)
    ensures Shift8(x & 0xff00) == x >> 8
  {
    var x1 := (x & 0xff00) >> 1;
    var x2 := (x & 0xff00) >> 2;
    var x3 := (x & 0xff00) >> 3;
    var x4 := (x & 0xff00) >> 4;
    var x5 := (x & 0xff00) >> 5;
    var x6 := (x & 0xff00) >> 6;
    var x7 := (x & 0xff00) >> 7;
    assert Shift(x & 0xff00) == x1;
    assert Shift(x1) == x2;
    assert Shift(x2) == x3;
    assert Shift(x3) == x4;
    assert Shift(x4) == x5;
    assert Shift(x5) == x6;
    assert Shift(x6) == x7;
    assert Shift(x7) == x >> 8;
  }

  lemma HalvesOfWord(x: Word)
    ensures x == XorWords(x & 0xff00, x & 0xff)
  {
  }

  /** The high half of the register only moves down; the low half goes through the table. */
  lemma EightShiftsByHalves(x: Word)
    ensures ACARS.Shifts(x, 8) == XorWords(x >> 8, Shift8(x & 0xff))
  {
    AcarsIsLawful();
    HalvesOfWord(x);
    ACARS.ShiftsAreLinear(x & 0xff00, x & 0xff, 8);
    Shift8IsShifts(x & 0xff00);
    Shift8IsShifts(x & 0xff);
    HighHalfMovesDown(x);
  }

  lemma HighHalfOfSum(crc: Word, c: Byte, x: Word)
    requires x == crc ^ (c as Word)
    ensures x >> 8 == crc >> 8
    ensures x == XorWords(crc, ToWord(c))
    ensures x & 0xff < 256
  {
  }

  /** update_crc: one table look-up a byte. */
  method UpdateCrc(crc: Word, c: Byte) returns (r: Word)
    ensures r == ACARS.Step(crc, c)
  {
    var x := crc ^ (c as Word);
    HighHalfOfSum(crc, c, x);
    r := UpdateByTable(x, crc >> 8);
  }

  method UpdateByTable(x: Word, high: Word) returns (r: Word)
    requires high == x >> 8 && x & 0xff < 256
    ensures r == ACARS.Shifts(x, 8)
  {
    var t := ReadCrcCcitt(x & 0xff);
    EightShiftsByHalves(x);
    r := XorWords(high, t);
  }

  // ----- the check bytes of a message

  function LowByte(x: Word): Byte {
    (x & 0xff) as Byte
  }

  function HighByte(x: Word): Byte {
    (x >> 8) as Byte
  }

  /** A byte leaves a trace in the high half of the register. */
  lemma ByteShows(y: Word)
    requires y < 256 && Shift8(y) < 256
    ensures y == 0
  {
  }

  lemma HighHalfStays(high: Word, low: Word, t: Word)
    requires high < 256 && t == high ^ low && t < 256
    ensures low < 256
  {
  }

  lemma FirstCheckByte(r: Word, c: Byte, x: Word)
    requires x == XorWords(r, ToWord(c))
    ensures x & 0xff == 0 <==> c == LowByte(r)
    ensures x >> 8 == ToWord(HighByte(r)) < 256 && x & 0xff < 256
  {
  }

  lemma ZeroShifts()
    ensures Shift8(0) == 0
  {
  }

  lemma SameBytes(b: Byte, c: Byte)
    ensures ToWord(b) == ToWord(c) <==> b == c
    ensures ToWord(b) < 256
  {
  }

  /** Eight steps take the high half down and leave less than a byte only if the low half is empty. */
  lemma DownByHalves(x: Word, y: Word, high: Word, low: Word)
    requires y == ACARS.Shifts(x, 8) && high == x >> 8 && low == x & 0xff && high < 256 && low < 256
    ensures low == 0 ==> y == high
    ensures y < 256 ==> low == 0
  {
    EightShiftsByHalves(x);
    ZeroShifts();
    if low == 0 {
      XorZero(high);
    } else if y < 256 {
      HighHalfStays(high, Shift8(low), y);
      ByteShows(low);
    }
  }

  lemma XorZero(x: Word)
    ensures XorWords(x, 0) == x
  {
  }

  /** Behind every message exactly two check bytes make the check word zero: the low and the high half of the
      register. */
  lemma OneTailFits(msg: seq<Byte>, c0: Byte, c1: Byte)
    ensures var r := ACARS.Check(0, msg);
            ACARS.Check(0, msg + [c0, c1]) == 0 <==> c0 == LowByte(r) && c1 == HighByte(r)
  {
    var r := ACARS.Check(0, msg);
    var x := XorWords(r, ToWord(c0));
    var y := ACARS.Shifts(x, 8);
    assert msg + [c0, c1] == msg + [c0] + [c1];
    assert (msg + [c0])[..|msg|] == msg && (msg + [c0] + [c1])[..|msg| + 1] == msg + [c0];
    assert ACARS.Check(0, msg + [c0, c1]) == ACARS.Step(y, c1);
    LastStep(y, c1);
    FirstCheckByte(r, c0, x);
    DownByHalves(x, y, x >> 8, x & 0xff);
    SameBytes(HighByte(r), c1);
    SameBytes(c1, c1);
  }

  lemma LastStep(y: Word, c: Byte)
    ensures ACARS.Step(y, c) == 0 <==> y == ToWord(c)
  {
    AcarsIsLawful();
    var z := XorWords(y, ToWord(c));
    ACARS.SumIsZero(y, ToWord(c));
    Shift8IsShifts(0);
    ZeroShifts();
    if ACARS.Shifts(z, 8) == 0 {
      ACARS.ShiftsAreInjective(z, 0, 8);
    }
  }

  // ----- the table

  lemma SyndromeIsPower(i: nat, d: nat)
    requires i < 8
    ensures ACARS.Syndrome(i, d) == Power(8 * (d + 1) - i)
  {
    AcarsIsLawful();
    ACARS.SyndromeFromLowest(i, 8 * (d + 1));
    PowerIsShifts(8 * (d + 1) - i);
  }

  /** In the table no bit of a text has the syndrome of a bit of the check bytes. */
  lemma TextBitIsNoCheckBit(i: nat, d: nat)
    requires i < 8 && 2 <= d < 242
    ensures !IsTailBit(ACARS, ACARS.Syndrome(i, d))
  {
    SyndromeIsPower(i, d);
    forall k: nat | k < 16
      ensures TailSyndrome(ACARS, k) != ACARS.Syndrome(i, d)
    {
      SyndromeIsPower(k % 8, k / 8);
      PowersDiffer(8 * (d + 1) - i, 8 * (k / 8 + 1) - k % 8);
    }
  }

  /** syndrom [i + 8 * d], which is what bit i of a byte with d bytes after it contributes. */
  method SyndromAt(i: nat, d: nat) returns (s: Word)
    requires i < 8 && d < 242
    ensures s == ACARS.Syndrome(i, d)
  {
    SyndromeIsPower(i, d);
    s := ReadSyndrom(i + 8 * d);
  }
}
