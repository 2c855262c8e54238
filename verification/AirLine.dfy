/** Bytes of eight bits as the framing of Framing.dfy wants them, and the bits that are sent before a frame
    (acars-decoder.cpp). */
module AirLine {
  import opened Crc
  import opened Framing

  const SYN: Byte := 0x16
  const SOH: Byte := 0x01
  const ETX: Byte := 0x83
  const ETB: Byte := 0x97
  const DLE: Byte := 0x7f

  function Push(w: Byte, bit: bool): Byte {
    (w >> 1) | (if bit then 0x80 else 0)
  }

  predicate BitOf(b: Byte, i: nat) {
    b & Bit(i) != 0
  }

  function Invert(b: Byte): Byte {
    b ^ 0xff
  }

  predicate OddParity(b: Byte) {
    ACARS.OddB(b)
  }

  const AIR: Line<Byte> := Line(Push, BitOf, Invert, OddParity, 0, SYN, SOH, ETX, ETB, DLE)

  // ----- the laws

  lemma InvertedBits(b: Byte, c: Byte)
    requires c == b ^ 0xff
    ensures (c & 0x01 != 0) != (b & 0x01 != 0) && (c & 0x02 != 0) != (b & 0x02 != 0)
    ensures (c & 0x04 != 0) != (b & 0x04 != 0) && (c & 0x08 != 0) != (b & 0x08 != 0)
    ensures (c & 0x10 != 0) != (b & 0x10 != 0) && (c & 0x20 != 0) != (b & 0x20 != 0)
    ensures (c & 0x40 != 0) != (b & 0x40 != 0) && (c & 0x80 != 0) != (b & 0x80 != 0)
  {
  }

  lemma InversionInverts(b: Byte, i: nat)
    ensures AIR.InversionInverts(b, i)
  {
    if i < 8 {
      InvertedBits(b, Invert(b));
    }
  }

  lemma PushedBits(w: Byte, b: Byte, w1: Byte, w2: Byte, w3: Byte, w4: Byte, w5: Byte, w6: Byte, w7: Byte)
    requires w1 == Push(w, BitOf(b, 0)) && w2 == Push(w1, BitOf(b, 1)) && w3 == Push(w2, BitOf(b, 2))
    requires w4 == Push(w3, BitOf(b, 3)) && w5 == Push(w4, BitOf(b, 4)) && w6 == Push(w5, BitOf(b, 5))
    requires w7 == Push(w6, BitOf(b, 6))
    ensures Push(w7, BitOf(b, 7)) == b
  {
  }

  lemma EightBits(w: Byte, b: Byte)
    ensures AIR.BitsMakeByte(w, b)
  {
    var w1 := AIR.Filled(w, b, 1);
    var w2 := AIR.Filled(w, b, 2);
    var w3 := AIR.Filled(w, b, 3);
    var w4 := AIR.Filled(w, b, 4);
    var w5 := AIR.Filled(w, b, 5);
    var w6 := AIR.Filled(w, b, 6);
    var w7 := AIR.Filled(w, b, 7);
    assert AIR.Filled(w, b, 0) == w;
    assert w1 == AIR.push(w, AIR.bit(b, 0));
    assert w1 == Push(w, BitOf(b, 0)) && w2 == Push(w1, BitOf(b, 1)) && w3 == Push(w2, BitOf(b, 2));
    assert w4 == Push(w3, BitOf(b, 3)) && w5 == Push(w4, BitOf(b, 4)) && w6 == Push(w5, BitOf(b, 5));
    assert w7 == Push(w6, BitOf(b, 6));
    PushedBits(w, b, w1, w2, w3, w4, w5, w6, w7);
  }

  lemma SynTakesEightBits(n: nat)
    requires n < 8
    ensures AIR.NoSyn(AIR.Filled(0, SYN, n)) && AIR.NoSyn(AIR.Filled(0, Invert(SYN), n))
  {
    assert AIR.Filled(0, 0x16, 1) == 0x00;
    assert AIR.Filled(0, 0x16, 2) == 0x80;
    assert AIR.Filled(0, 0x16, 3) == 0xc0;
    assert AIR.Filled(0, 0x16, 4) == 0x60;
    assert AIR.Filled(0, 0x16, 5) == 0xb0;
    assert AIR.Filled(0, 0x16, 6) == 0x58;
    assert AIR.Filled(0, 0x16, 7) == 0x2c;
    assert AIR.Filled(0, 0xe9, 1) == 0x80;
    assert AIR.Filled(0, 0xe9, 2) == 0x40;
    assert AIR.Filled(0, 0xe9, 3) == 0x20;
    assert AIR.Filled(0, 0xe9, 4) == 0x90;
    assert AIR.Filled(0, 0xe9, 5) == 0x48;
    assert AIR.Filled(0, 0xe9, 6) == 0xa4;
    assert AIR.Filled(0, 0xe9, 7) == 0xd2;
    assert Invert(0x16) == 0xe9;
  }

  lemma NextBit(w: Word, n: nat, lowBit: bool, rest: Word)
    requires n > 0 && LowBit(w) == lowBit && Half(w) == rest
    ensures ACARS.OddLow(w, n) <==> lowBit != ACARS.OddLow(rest, n - 1)
  {
  }

  lemma TerminatorBits()
    ensures LowBit(0x1) && Half(0x1) == 0x0
    ensures !LowBit(0x2) && Half(0x2) == 0x1
    ensures !LowBit(0x4) && Half(0x4) == 0x2
    ensures !LowBit(0x8) && Half(0x8) == 0x4
    ensures !LowBit(0x10) && Half(0x10) == 0x8
    ensures !LowBit(0x20) && Half(0x20) == 0x10
    ensures LowBit(0x41) && Half(0x41) == 0x20
    ensures LowBit(0x83) && Half(0x83) == 0x41
    ensures LowBit(0x9) && Half(0x9) == 0x4
    ensures !LowBit(0x12) && Half(0x12) == 0x9
    ensures LowBit(0x25) && Half(0x25) == 0x12
    ensures LowBit(0x4b) && Half(0x4b) == 0x25
    ensures LowBit(0x97) && Half(0x97) == 0x4b
  {
  }

  lemma ZeroIsEven()
    ensures !ACARS.OddLow(0, 8)
  {
    AcarsIsLawful();
    ACARS.ZeroIsEven(8);
  }

  lemma TerminatorsAreOdd()
    ensures OddParity(ETX) && OddParity(ETB)
  {
    TerminatorBits();
    ZeroIsEven();
    NextBit(0x1, 9, true, 0);
    NextBit(0x2, 10, false, 0x1);
    NextBit(0x4, 11, false, 0x2);
    NextBit(0x8, 12, false, 0x4);
    NextBit(0x10, 13, false, 0x8);
    NextBit(0x20, 14, false, 0x10);
    NextBit(0x41, 15, true, 0x20);
    NextBit(0x83, 16, true, 0x41);
    NextBit(0x9, 12, true, 0x4);
    NextBit(0x12, 13, false, 0x9);
    NextBit(0x25, 14, true, 0x12);
    NextBit(0x4b, 15, true, 0x25);
    NextBit(0x97, 16, true, 0x4b);
  }

  lemma AirIsLawful()
    ensures AIR.Lawful()
  {
    forall w, b
      ensures AIR.BitsMakeByte(w, b)
    {
      EightBits(w, b);
    }
    forall b, i: nat
      ensures AIR.InversionInverts(b, i)
    {
      InversionInverts(b, i);
    }
    forall n: nat | n < 8 {
      SynTakesEightBits(n);
    }
    TerminatorsAreOdd();
  }

  // ----- what is sent before a frame

  lemma SynBehindOnes(n: nat)
    requires n < 8
    ensures AIR.NoSyn(AIR.Filled(0xff, SYN, n)) && AIR.NoSyn(AIR.Filled(0xff, Invert(SYN), n))
  {
    assert AIR.Filled(0xff, 0x16, 1) == 0x7f;
    assert AIR.Filled(0xff, 0x16, 2) == 0xbf;
    assert AIR.Filled(0xff, 0x16, 3) == 0xdf;
    assert AIR.Filled(0xff, 0x16, 4) == 0x6f;
    assert AIR.Filled(0xff, 0x16, 5) == 0xb7;
    assert AIR.Filled(0xff, 0x16, 6) == 0x5b;
    assert AIR.Filled(0xff, 0x16, 7) == 0x2d;
    assert AIR.Filled(0xff, 0xe9, 1) == 0xff;
    assert AIR.Filled(0xff, 0xe9, 2) == 0x7f;
    assert AIR.Filled(0xff, 0xe9, 3) == 0x3f;
    assert AIR.Filled(0xff, 0xe9, 4) == 0x9f;
    assert AIR.Filled(0xff, 0xe9, 5) == 0x4f;
    assert AIR.Filled(0xff, 0xe9, 6) == 0xa7;
    assert AIR.Filled(0xff, 0xe9, 7) == 0xd3;
    assert Invert(0x16) == 0xe9;
  }

  lemma OnesFill(n: nat)
    requires n < 8
    ensures AIR.NoSyn(AIR.Filled(0, 0xff, n))
  {
    assert AIR.Filled(0, 0xff, 1) == 0x80;
    assert AIR.Filled(0, 0xff, 2) == 0xc0;
    assert AIR.Filled(0, 0xff, 3) == 0xe0;
    assert AIR.Filled(0, 0xff, 4) == 0xf0;
    assert AIR.Filled(0, 0xff, 5) == 0xf8;
    assert AIR.Filled(0, 0xff, 6) == 0xfc;
    assert AIR.Filled(0, 0xff, 7) == 0xfe;
    assert Invert(0x16) == 0xe9;
  }

  lemma ZerosFill(n: nat)
    requires n < 8
    ensures AIR.NoSyn(AIR.Filled(0, 0, n))
  {
    assert AIR.Filled(0, 0, 1) == 0;
    assert AIR.Filled(0, 0, 2) == 0;
    assert AIR.Filled(0, 0, 3) == 0;
    assert AIR.Filled(0, 0, 4) == 0;
    assert AIR.Filled(0, 0, 5) == 0;
    assert AIR.Filled(0, 0, 6) == 0;
    assert AIR.Filled(0, 0, 7) == 0;
    assert Invert(0x16) == 0xe9;
  }

  /** The byte of which all bits are v. */
  function Solid(v: bool): Byte {
    if v then 0xff else 0
  }

  lemma SolidBits(v: bool, i: nat)
    requires i < 8
    ensures BitOf(Solid(v), i) == v
  {
  }

  lemma SolidIsNoSyn(v: bool)
    ensures AIR.NoSyn(Solid(v)) && Invert(0x16) == 0xe9
  {
  }

  /** Whole windows of bits that are all the same. */
  lemma SolidWindow(w: Byte, bits: seq<bool>, v: bool, k: nat, m: nat)
    requires m <= 8 && m <= k <= |bits| && forall j :: 0 <= j < k ==> bits[j] == v
    ensures AIR.Pushed(w, bits[..k]) == AIR.Filled(AIR.Pushed(w, bits[..k - m]), Solid(v), m)
    ensures m == 8 ==> AIR.Pushed(w, bits[..k]) == Solid(v)
  {
    forall j | 0 <= j < m
      ensures bits[k - m + j] == AIR.bit(Solid(v), j)
    {
      SolidBits(v, j);
    }
    AIR.PushedByte(w, bits, k - m, Solid(v), m);
    EightBits(AIR.Pushed(w, bits[..k - m]), Solid(v));
  }

  lemma WindowOfPrekey(w: Byte, nbits: int, bits: seq<bool>, v: bool, syn: Byte, n: nat, k: nat)
    requires 8 <= n < |bits| == n + 8 && (nbits == 8 || (nbits == 0 && w == 0)) && 0 < k < |bits| && nbits <= k
    requires (forall j :: 0 <= j < n ==> bits[j] == v) && (forall j :: 0 <= j < 8 ==> bits[n + j] == AIR.bit(syn, j))
    requires syn == SYN || syn == Invert(SYN)
    ensures AIR.NoSyn(AIR.Pushed(w, bits[..k]))
  {
    if k < 8 {
      SolidWindow(w, bits, v, k, k);
      assert bits[..0] == [];
      OnesFill(k);
      ZerosFill(k);
    } else if k <= n {
      SolidWindow(w, bits, v, k, 8);
      SolidIsNoSyn(v);
    } else {
      SolidWindow(w, bits, v, n, 8);
      AIR.PushedByte(w, bits, n, syn, k - n);
      SynBehindOnes(k - n);
      SynTakesEightBits(k - n);
    }
  }

  /** Eight or more bits of one kind before a frame are taken for no SYN, behind another frame as well as by a decoder
      just made. */
  lemma PrekeyIsUnnoticed(w: Byte, nbits: int, seen: bool, idle: seq<bool>, inverted: bool, v: bool)
    requires |idle| >= 8 && forall k :: 0 <= k < |idle| ==> idle[k] == v
    requires nbits == 8 || (nbits == 0 && w == 0)
    ensures AIR.Unnoticed(w, nbits, seen, idle, inverted)
  {
    AirIsLawful();
    var bits, n := AIR.Turned(AIR.Lead(idle, inverted), seen), |idle|;
    var syn := if seen == inverted then SYN else Invert(SYN);
    AIR.SynBits(AIR.Fresh().(inverted := seen), idle, inverted, bits, syn);
    forall k | 0 < k < |bits| && nbits <= k
      ensures AIR.NoSyn(AIR.Pushed(w, bits[..k]))
    {
      WindowOfPrekey(w, nbits, bits, v != seen, syn, n, k);
    }
  }
}
