/** The two constant tables of syndrom.h, eight entries to a row as the header lists them, and what
    their entries are.  Each table is cut into short pieces, so that a proof about an arbitrary
    entry looks at one piece only. */
module SyndromeTable {

  /** One division step of the reflected polynomial x^16 + x^12 + x^5 + 1: the bit shifted out is
      fed back into bits 15, 10 and 3 (0x8408). */
  function Shift(x: bv16): bv16 {
    (x >> 1) ^ ((x & 1) << 15) ^ ((x & 1) << 10) ^ ((x & 1) << 3)
  }

  /** Eight division steps: one byte. */
  function Shift8(x: bv16): bv16 {
    Shift(Shift(Shift(Shift(Shift(Shift(Shift(Shift(x))))))))
  }

  /** What is left of a single bit after n division steps. */
  function Power(n: nat): bv16 {
    if n == 0 then 1 else Shift(Power(n - 1))
  }

  // ----- crc_ccitt_table

  function CrcRows0(i: bv16): bv16 {
    match i
    case 0  => 0x0000 case 1  => 0x1189 case 2  => 0x2312 case 3  => 0x329b
    case 4  => 0x4624 case 5  => 0x57ad case 6  => 0x6536 case 7  => 0x74bf
    case 8  => 0x8c48 case 9  => 0x9dc1 case 10 => 0xaf5a case 11 => 0xbed3
    case 12 => 0xca6c case 13 => 0xdbe5 case 14 => 0xe97e case _  => 0xf8f7
  }

  lemma CrcRows0Divide(y: bv16)
    requires 0 <= y < 16
    ensures CrcRows0(y & 15) == Shift8(y)
  {
  }

  function CrcRows1(i: bv16): bv16 {
    match i
    case 0  => 0x1081 case 1  => 0x0108 case 2  => 0x3393 case 3  => 0x221a
    case 4  => 0x56a5 case 5  => 0x472c case 6  => 0x75b7 case 7  => 0x643e
    case 8  => 0x9cc9 case 9  => 0x8d40 case 10 => 0xbfdb case 11 => 0xae52
    case 12 => 0xdaed case 13 => 0xcb64 case 14 => 0xf9ff case _  => 0xe876
  }

  lemma CrcRows1Divide(y: bv16)
    requires 16 <= y < 32
    ensures CrcRows1(y & 15) == Shift8(y)
  {
  }

  function CrcRows2(i: bv16): bv16 {
    match i
    case 0  => 0x2102 case 1  => 0x308b case 2  => 0x0210 case 3  => 0x1399
    case 4  => 0x6726 case 5  => 0x76af case 6  => 0x4434 case 7  => 0x55bd
    case 8  => 0xad4a case 9  => 0xbcc3 case 10 => 0x8e58 case 11 => 0x9fd1
    case 12 => 0xeb6e case 13 => 0xfae7 case 14 => 0xc87c case _  => 0xd9f5
  }

  lemma CrcRows2Divide(y: bv16)
    requires 32 <= y < 48
    ensures CrcRows2(y & 15) == Shift8(y)
  {
  }

  function CrcRows3(i: bv16): bv16 {
    match i
    case 0  => 0x3183 case 1  => 0x200a case 2  => 0x1291 case 3  => 0x0318
    case 4  => 0x77a7 case 5  => 0x662e case 6  => 0x54b5 case 7  => 0x453c
    case 8  => 0xbdcb case 9  => 0xac42 case 10 => 0x9ed9 case 11 => 0x8f50
    case 12 => 0xfbef case 13 => 0xea66 case 14 => 0xd8fd case _  => 0xc974
  }

  lemma CrcRows3Divide(y: bv16)
    requires 48 <= y < 64
    ensures CrcRows3(y & 15) == Shift8(y)
  {
  }

  function CrcRows4(i: bv16): bv16 {
    match i
    case 0  => 0x4204 case 1  => 0x538d case 2  => 0x6116 case 3  => 0x709f
    case 4  => 0x0420 case 5  => 0x15a9 case 6  => 0x2732 case 7  => 0x36bb
    case 8  => 0xce4c case 9  => 0xdfc5 case 10 => 0xed5e case 11 => 0xfcd7
    case 12 => 0x8868 case 13 => 0x99e1 case 14 => 0xab7a case _  => 0xbaf3
  }

  lemma CrcRows4Divide(y: bv16)
    requires 64 <= y < 80
    ensures CrcRows4(y & 15) == Shift8(y)
  {
  }

  function CrcRows5(i: bv16): bv16 {
    match i
    case 0  => 0x5285 case 1  => 0x430c case 2  => 0x7197 case 3  => 0x601e
    case 4  => 0x14a1 case 5  => 0x0528 case 6  => 0x37b3 case 7  => 0x263a
    case 8  => 0xdecd case 9  => 0xcf44 case 10 => 0xfddf case 11 => 0xec56
    case 12 => 0x98e9 case 13 => 0x8960 case 14 => 0xbbfb case _  => 0xaa72
  }

  lemma CrcRows5Divide(y: bv16)
    requires 80 <= y < 96
    ensures CrcRows5(y & 15) == Shift8(y)
  {
  }

  function CrcRows6(i: bv16): bv16 {
    match i
    case 0  => 0x6306 case 1  => 0x728f case 2  => 0x4014 case 3  => 0x519d
    case 4  => 0x2522 case 5  => 0x34ab case 6  => 0x0630 case 7  => 0x17b9
    case 8  => 0xef4e case 9  => 0xfec7 case 10 => 0xcc5c case 11 => 0xddd5
    case 12 => 0xa96a case 13 => 0xb8e3 case 14 => 0x8a78 case _  => 0x9bf1
  }

  lemma CrcRows6Divide(y: bv16)
    requires 96 <= y < 112
    ensures CrcRows6(y & 15) == Shift8(y)
  {
  }

  function CrcRows7(i: bv16): bv16 {
    match i
    case 0  => 0x7387 case 1  => 0x620e case 2  => 0x5095 case 3  => 0x411c
    case 4  => 0x35a3 case 5  => 0x242a case 6  => 0x16b1 case 7  => 0x0738
    case 8  => 0xffcf case 9  => 0xee46 case 10 => 0xdcdd case 11 => 0xcd54
    case 12 => 0xb9eb case 13 => 0xa862 case 14 => 0x9af9 case _  => 0x8b70
  }

  lemma CrcRows7Divide(y: bv16)
    requires 112 <= y < 128
    ensures CrcRows7(y & 15) == Shift8(y)
  {
  }

  function CrcRows8(i: bv16): bv16 {
    match i
    case 0  => 0x8408 case 1  => 0x9581 case 2  => 0xa71a case 3  => 0xb693
    case 4  => 0xc22c case 5  => 0xd3a5 case 6  => 0xe13e case 7  => 0xf0b7
    case 8  => 0x0840 case 9  => 0x19c9 case 10 => 0x2b52 case 11 => 0x3adb
    case 12 => 0x4e64 case 13 => 0x5fed case 14 => 0x6d76 case _  => 0x7cff
  }

  lemma CrcRows8Divide(y: bv16)
    requires 128 <= y < 144
    ensures CrcRows8(y & 15) == Shift8(y)
  {
  }

  function CrcRows9(i: bv16): bv16 {
    match i
    case 0  => 0x9489 case 1  => 0x8500 case 2  => 0xb79b case 3  => 0xa612
    case 4  => 0xd2ad case 5  => 0xc324 case 6  => 0xf1bf case 7  => 0xe036
    case 8  => 0x18c1 case 9  => 0x0948 case 10 => 0x3bd3 case 11 => 0x2a5a
    case 12 => 0x5ee5 case 13 => 0x4f6c case 14 => 0x7df7 case _  => 0x6c7e
  }

  lemma CrcRows9Divide(y: bv16)
    requires 144 <= y < 160
    ensures CrcRows9(y & 15) == Shift8(y)
  {
  }

  function CrcRows10(i: bv16): bv16 {
    match i
    case 0  => 0xa50a case 1  => 0xb483 case 2  => 0x8618 case 3  => 0x9791
    case 4  => 0xe32e case 5  => 0xf2a7 case 6  => 0xc03c case 7  => 0xd1b5
    case 8  => 0x2942 case 9  => 0x38cb case 10 => 0x0a50 case 11 => 0x1bd9
    case 12 => 0x6f66 case 13 => 0x7eef case 14 => 0x4c74 case _  => 0x5dfd
  }

  lemma CrcRows10Divide(y: bv16)
    requires 160 <= y < 176
    ensures CrcRows10(y & 15) == Shift8(y)
  {
  }

  function CrcRows11(i: bv16): bv16 {
    match i
    case 0  => 0xb58b case 1  => 0xa402 case 2  => 0x9699 case 3  => 0x8710
    case 4  => 0xf3af case 5  => 0xe226 case 6  => 0xd0bd case 7  => 0xc134
    case 8  => 0x39c3 case 9  => 0x284a case 10 => 0x1ad1 case 11 => 0x0b58
    case 12 => 0x7fe7 case 13 => 0x6e6e case 14 => 0x5cf5 case _  => 0x4d7c
  }

  lemma CrcRows11Divide(y: bv16)
    requires 176 <= y < 192
    ensures CrcRows11(y & 15) == Shift8(y)
  {
  }

  function CrcRows12(i: bv16): bv16 {
    match i
    case 0  => 0xc60c case 1  => 0xd785 case 2  => 0xe51e case 3  => 0xf497
    case 4  => 0x8028 case 5  => 0x91a1 case 6  => 0xa33a case 7  => 0xb2b3
    case 8  => 0x4a44 case 9  => 0x5bcd case 10 => 0x6956 case 11 => 0x78df
    case 12 => 0x0c60 case 13 => 0x1de9 case 14 => 0x2f72 case _  => 0x3efb
  }

  lemma CrcRows12Divide(y: bv16)
    requires 192 <= y < 208
    ensures CrcRows12(y & 15) == Shift8(y)
  {
  }

  function CrcRows13(i: bv16): bv16 {
    match i
    case 0  => 0xd68d case 1  => 0xc704 case 2  => 0xf59f case 3  => 0xe416
    case 4  => 0x90a9 case 5  => 0x8120 case 6  => 0xb3bb case 7  => 0xa232
    case 8  => 0x5ac5 case 9  => 0x4b4c case 10 => 0x79d7 case 11 => 0x685e
    case 12 => 0x1ce1 case 13 => 0x0d68 case 14 => 0x3ff3 case _  => 0x2e7a
  }

  lemma CrcRows13Divide(y: bv16)
    requires 208 <= y < 224
    ensures CrcRows13(y & 15) == Shift8(y)
  {
  }

  function CrcRows14(i: bv16): bv16 {
    match i
    case 0  => 0xe70e case 1  => 0xf687 case 2  => 0xc41c case 3  => 0xd595
    case 4  => 0xa12a case 5  => 0xb0a3 case 6  => 0x8238 case 7  => 0x93b1
    case 8  => 0x6b46 case 9  => 0x7acf case 10 => 0x4854 case 11 => 0x59dd
    case 12 => 0x2d62 case 13 => 0x3ceb case 14 => 0x0e70 case _  => 0x1ff9
  }

  lemma CrcRows14Divide(y: bv16)
    requires 224 <= y < 240
    ensures CrcRows14(y & 15) == Shift8(y)
  {
  }

  function CrcRows15(i: bv16): bv16 {
    match i
    case 0  => 0xf78f case 1  => 0xe606 case 2  => 0xd49d case 3  => 0xc514
    case 4  => 0xb1ab case 5  => 0xa022 case 6  => 0x92b9 case 7  => 0x8330
    case 8  => 0x7bc7 case 9  => 0x6a4e case 10 => 0x58d5 case 11 => 0x495c
    case 12 => 0x3de3 case 13 => 0x2c6a case 14 => 0x1ef1 case _  => 0x0f78
  }

  lemma CrcRows15Divide(y: bv16)
    requires 240 <= y < 256
    ensures CrcRows15(y & 15) == Shift8(y)
  {
  }

  /** crc_ccitt_table [y] */
  function CrcCcitt(y: bv16): bv16
    requires y < 256
  {
    match y >> 4
    case 0  => CrcRows0(y & 15)
    case 1  => CrcRows1(y & 15)
    case 2  => CrcRows2(y & 15)
    case 3  => CrcRows3(y & 15)
    case 4  => CrcRows4(y & 15)
    case 5  => CrcRows5(y & 15)
    case 6  => CrcRows6(y & 15)
    case 7  => CrcRows7(y & 15)
    case 8  => CrcRows8(y & 15)
    case 9  => CrcRows9(y & 15)
    case 10 => CrcRows10(y & 15)
    case 11 => CrcRows11(y & 15)
    case 12 => CrcRows12(y & 15)
    case 13 => CrcRows13(y & 15)
    case 14 => CrcRows14(y & 15)
    case _  => CrcRows15(y & 15)
  }

  /** Every entry of the CRC table is what eight division steps make of its index. */
  lemma CrcCcittIsDivision(y: bv16)
    requires y < 256
    ensures CrcCcitt(y) == Shift8(y)
  {
    match y >> 4
    case 0  => CrcRows0Divide(y);
    case 1  => CrcRows1Divide(y);
    case 2  => CrcRows2Divide(y);
    case 3  => CrcRows3Divide(y);
    case 4  => CrcRows4Divide(y);
    case 5  => CrcRows5Divide(y);
    case 6  => CrcRows6Divide(y);
    case 7  => CrcRows7Divide(y);
    case 8  => CrcRows8Divide(y);
    case 9  => CrcRows9Divide(y);
    case 10 => CrcRows10Divide(y);
    case 11 => CrcRows11Divide(y);
    case 12 => CrcRows12Divide(y);
    case 13 => CrcRows13Divide(y);
    case 14 => CrcRows14Divide(y);
    case _  => CrcRows15Divide(y);
  }

  // ----- syndrom

  datatype Row = Row(e0: bv16, e1: bv16, e2: bv16, e3: bv16, e4: bv16, e5: bv16, e6: bv16, e7: bv16) {
    function At(i: nat): bv16
      requires i < 8
    {
      match i
      case 0 => e0 case 1 => e1 case 2 => e2 case 3 => e3
      case 4 => e4 case 5 => e5 case 6 => e6 case _ => e7
    }
  }

  datatype Rows = End | Then(head: Row, tail: Rows) {
    function Length(): nat {
      if End? then 0 else 1 + tail.Length()
    }

    function At(k: nat): Row
      requires k < Length()
    {
      if k == 0 then head else tail.At(k - 1)
    }
  }

  /** No entry is a single bit in place 0, which is where the division steps start. */
  predicate NoStart(r: Row) {
    r.e7 != 1 && r.e6 != 1 && r.e5 != 1 && r.e4 != 1 && r.e3 != 1 && r.e2 != 1 && r.e1 != 1 && r.e0 != 1
  }

  /** Reading each row from its last entry to its first, every entry is one division step on from the
      entry read before it, and the first one read is a step on from prev. */
  predicate Walk(prev: bv16, rows: Rows)
    decreases rows
  {
    rows.End? || (
      var r := rows.head;
      && r.e7 == Shift(prev) && r.e6 == Shift(r.e7) && r.e5 == Shift(r.e6) && r.e4 == Shift(r.e5)
      && r.e3 == Shift(r.e4) && r.e2 == Shift(r.e3) && r.e1 == Shift(r.e2) && r.e0 == Shift(r.e1)
      && Walk(r.e0, rows.tail))
  }

  function Last(prev: bv16, rows: Rows): bv16
    decreases rows
  {
    if rows.End? then prev else Last(rows.head.e0, rows.tail)
  }

  lemma RowIsPowers(n: nat, r: Row)
    requires Walk(Power(n), Then(r, End))
    ensures r.e7 == Power(n + 1) && r.e6 == Power(n + 2) && r.e5 == Power(n + 3) && r.e4 == Power(n + 4)
    ensures r.e3 == Power(n + 5) && r.e2 == Power(n + 6) && r.e1 == Power(n + 7) && r.e0 == Power(n + 8)
  {
  }

  lemma {:induction false} RowsArePowers(n: nat, rows: Rows, k: nat)
    requires Walk(Power(n), rows) && k < rows.Length()
    ensures Walk(Power(n + 8 * k), Then(rows.At(k), End))
    decreases k
  {
    RowIsPowers(n, rows.head);
    if k > 0 {
      RowsArePowers(n + 8, rows.tail, k - 1);
    }
  }

  lemma EntryIsPower(n: nat, rows: Rows, r: nat, i: nat)
    requires Walk(Power(n), rows) && r < rows.Length() && i < 8
    ensures rows.At(r).At(i) == Power(n + 8 * r + 8 - i)
  {
    RowsArePowers(n, rows, r);
    RowIsPowers(n + 8 * r, rows.At(r));
  }

  lemma {:induction false} LastIsPower(n: nat, rows: Rows)
    requires Walk(Power(n), rows)
    ensures Last(Power(n), rows) == Power(n + 8 * rows.Length())
    decreases rows
  {
    if rows.Then? {
      RowIsPowers(n, rows.head);
      LastIsPower(n + 8, rows.tail);
    }
  }

  /** The division steps do not start anew within these rows. */
  predicate Fresh(rows: Rows)
    decreases rows
  {
    rows.End? || (NoStart(rows.head) && Fresh(rows.tail))
  }

  lemma {:induction false} EntryIsFresh(rows: Rows, k: nat, i: nat)
    requires Fresh(rows) && k < rows.Length() && i < 8
    ensures rows.At(k).At(i) != 1
    decreases k
  {
    if k > 0 {
      EntryIsFresh(rows.tail, k - 1, i);
    }
  }

  predicate Tabulates(start: bv16, rows: Rows, end: bv16) {
    rows.Length() == 11 && Walk(start, rows) && Last(start, rows) == end
  }

  function Syndrom0(): Rows {
    Then(Row(0x1189, 0x2312, 0x4624, 0x8c48, 0x1081, 0x2102, 0x4204, 0x8408),
    Then(Row(0x19d8, 0x33b0, 0x6760, 0xcec0, 0x9591, 0x2333, 0x4666, 0x8ccc),
    Then(Row(0x5adc, 0xb5b8, 0x6361, 0xc6c2, 0x8595, 0x033b, 0x0676, 0x0cec),
    Then(Row(0x1cbb, 0x3976, 0x72ec, 0xe5d8, 0xc3a1, 0x8f53, 0x16b7, 0x2d6e),
    Then(Row(0x0b44, 0x1688, 0x2d10, 0x5a20, 0xb440, 0x6091, 0xc122, 0x8a55),
    Then(Row(0x042b, 0x0856, 0x10ac, 0x2158, 0x42b0, 0x8560, 0x02d1, 0x05a2),
    Then(Row(0x9fd5, 0x37bb, 0x6f76, 0xdeec, 0xb5c9, 0x6383, 0xc706, 0x861d),
    Then(Row(0x81bf, 0x0b6f, 0x16de, 0x2dbc, 0x5b78, 0xb6f0, 0x65f1, 0xcbe2),
    Then(Row(0x4dfd, 0x9bfa, 0x3fe5, 0x7fca, 0xff94, 0xf739, 0xe663, 0xc4d7),
    Then(Row(0x2c27, 0x584e, 0xb09c, 0x6929, 0xd252, 0xacb5, 0x517b, 0xa2f6),
    Then(Row(0x5591, 0xab22, 0x5e55, 0xbcaa, 0x7145, 0xe28a, 0xcd05, 0x921b),
    End)))))))))))
  }

  lemma Syndrom0Tabulates()
    ensures Tabulates(0x0001, Syndrom0(), 0x5591)
  {
  }

  lemma Syndrom0IsFresh()
    ensures Fresh(Syndrom0())
  {
  }

  function Syndrom1(): Rows {
    Then(Row(0x8555, 0x02bb, 0x0576, 0x0aec, 0x15d8, 0x2bb0, 0x5760, 0xaec0),
    Then(Row(0x05ad, 0x0b5a, 0x16b4, 0x2d68, 0x5ad0, 0xb5a0, 0x6351, 0xc6a2),
    Then(Row(0x7eea, 0xfdd4, 0xf3b9, 0xef63, 0xd6d7, 0xa5bf, 0x436f, 0x86de),
    Then(Row(0x482a, 0x9054, 0x28b9, 0x5172, 0xa2e4, 0x4dd9, 0x9bb2, 0x3f75),
    Then(Row(0x8e10, 0x1431, 0x2862, 0x50c4, 0xa188, 0x4b01, 0x9602, 0x2415),
    Then(Row(0x100f, 0x201e, 0x403c, 0x8078, 0x08e1, 0x11c2, 0x2384, 0x4708),
    Then(Row(0xf8e7, 0xf9df, 0xfbaf, 0xff4f, 0xf68f, 0xe50f, 0xc20f, 0x8c0f),
    Then(Row(0x9349, 0x2e83, 0x5d06, 0xba0c, 0x7c09, 0xf812, 0xf835, 0xf87b),
    Then(Row(0xdf56, 0xb6bd, 0x656b, 0xcad6, 0x9dbd, 0x336b, 0x66d6, 0xcdac),
    Then(Row(0x376c, 0x6ed8, 0xddb0, 0xb371, 0x6ef3, 0xdde6, 0xb3dd, 0x6fab),
    Then(Row(0xa95d, 0x5aab, 0xb556, 0x62bd, 0xc57a, 0x82e5, 0x0ddb, 0x1bb6),
    End)))))))))))
  }

  lemma Syndrom1Tabulates()
    ensures Tabulates(0x5591, Syndrom1(), 0xa95d)
  {
  }

  lemma Syndrom1IsFresh()
    ensures Fresh(Syndrom1())
  {
  }

  function Syndrom2(): Rows {
    Then(Row(0x89c9, 0x1b83, 0x3706, 0x6e0c, 0xdc18, 0xb021, 0x6853, 0xd0a6),
    Then(Row(0x5b44, 0xb688, 0x6501, 0xca02, 0x9c15, 0x303b, 0x6076, 0xc0ec),
    Then(Row(0x047b, 0x08f6, 0x11ec, 0x23d8, 0x47b0, 0x8f60, 0x16d1, 0x2da2),
    Then(Row(0xcd50, 0x92b1, 0x2d73, 0x5ae6, 0xb5cc, 0x6389, 0xc712, 0x8635),
    Then(Row(0x5248, 0xa490, 0x4131, 0x8262, 0x0cd5, 0x19aa, 0x3354, 0x66a8),
    Then(Row(0xce1e, 0x942d, 0x204b, 0x4096, 0x812c, 0x0a49, 0x1492, 0x2924),
    Then(Row(0xf931, 0xfa73, 0xfcf7, 0xf1ff, 0xebef, 0xdfcf, 0xb78f, 0x670f),
    Then(Row(0x20f3, 0x41e6, 0x83cc, 0x0f89, 0x1f12, 0x3e24, 0x7c48, 0xf890),
    Then(Row(0xc534, 0x8279, 0x0ce3, 0x19c6, 0x338c, 0x6718, 0xce30, 0x9471),
    Then(Row(0x7762, 0xeec4, 0xd599, 0xa323, 0x4e57, 0x9cae, 0x314d, 0x629a),
    Then(Row(0x4063, 0x80c6, 0x099d, 0x133a, 0x2674, 0x4ce8, 0x99d0, 0x3bb1),
    End)))))))))))
  }

  lemma Syndrom2Tabulates()
    ensures Tabulates(0xa95d, Syndrom2(), 0x4063)
  {
  }

  lemma Syndrom2IsFresh()
    ensures Fresh(Syndrom2())
  {
  }

  function Syndrom3(): Rows {
    Then(Row(0x51dd, 0xa3ba, 0x4f65, 0x9eca, 0x3585, 0x6b0a, 0xd614, 0xa439),
    Then(Row(0x0d39, 0x1a72, 0x34e4, 0x69c8, 0xd390, 0xaf31, 0x5673, 0xace6),
    Then(Row(0xac4f, 0x508f, 0xa11e, 0x4a2d, 0x945a, 0x20a5, 0x414a, 0x8294),
    Then(Row(0xba5f, 0x7caf, 0xf95e, 0xfaad, 0xfd4b, 0xf287, 0xed1f, 0xd22f),
    Then(Row(0xaac8, 0x5d81, 0xbb02, 0x7e15, 0xfc2a, 0xf045, 0xe89b, 0xd927),
    Then(Row(0x4aee, 0x95dc, 0x23a9, 0x4752, 0x8ea4, 0x1559, 0x2ab2, 0x5564),
    Then(Row(0x0e3a, 0x1c74, 0x38e8, 0x71d0, 0xe3a0, 0xcf51, 0x96b3, 0x2577),
    Then(Row(0x9ed7, 0x35bf, 0x6b7e, 0xd6fc, 0xa5e9, 0x43c3, 0x8786, 0x071d),
    Then(Row(0xa2ac, 0x4d49, 0x9a92, 0x3d35, 0x7a6a, 0xf4d4, 0xe1b9, 0xcb63),
    Then(Row(0x6fc4, 0xdf88, 0xb701, 0x6613, 0xcc26, 0x905d, 0x28ab, 0x5156),
    Then(Row(0x8047, 0x089f, 0x113e, 0x227c, 0x44f8, 0x89f0, 0x1bf1, 0x37e2),
    End)))))))))))
  }

  lemma Syndrom3Tabulates()
    ensures Tabulates(0x4063, Syndrom3(), 0x8047)
  {
  }

  lemma Syndrom3IsFresh()
    ensures Fresh(Syndrom3())
  {
  }

  function Syndrom4(): Rows {
    Then(Row(0x363b, 0x6c76, 0xd8ec, 0xb9c9, 0x7b83, 0xf706, 0xe61d, 0xc42b),
    Then(Row(0x8f66, 0x16dd, 0x2dba, 0x5b74, 0xb6e8, 0x65c1, 0xcb82, 0x9f15),
    Then(Row(0x06bf, 0x0d7e, 0x1afc, 0x35f8, 0x6bf0, 0xd7e0, 0xa7d1, 0x47b3),
    Then(Row(0x4d7a, 0x9af4, 0x3df9, 0x7bf2, 0xf7e4, 0xe7d9, 0xc7a3, 0x8757),
    Then(Row(0xdc90, 0xb131, 0x6a73, 0xd4e6, 0xa1dd, 0x4bab, 0x9756, 0x26bd),
    Then(Row(0x9455, 0x20bb, 0x4176, 0x82ec, 0x0dc9, 0x1b92, 0x3724, 0x6e48),
    Then(Row(0x05bc, 0x0b78, 0x16f0, 0x2de0, 0x5bc0, 0xb780, 0x6711, 0xce22),
    Then(Row(0x7fe2, 0xffc4, 0xf799, 0xe723, 0xc657, 0x84bf, 0x016f, 0x02de),
    Then(Row(0xc463, 0x80d7, 0x09bf, 0x137e, 0x26fc, 0x4df8, 0x9bf0, 0x3ff1),
    Then(Row(0x5159, 0xa2b2, 0x4d75, 0x9aea, 0x3dc5, 0x7b8a, 0xf714, 0xe639),
    Then(Row(0xcf15, 0x963b, 0x2467, 0x48ce, 0x919c, 0x2b29, 0x5652, 0xaca4),
    End)))))))))))
  }

  lemma Syndrom4Tabulates()
    ensures Tabulates(0x8047, Syndrom4(), 0xcf15)
  {
  }

  lemma Syndrom4IsFresh()
    ensures Fresh(Syndrom4())
  {
  }

  function Syndrom5(): Rows {
    Then(Row(0x47e3, 0x8fc6, 0x179d, 0x2f3a, 0x5e74, 0xbce8, 0x71c1, 0xe382),
    Then(Row(0xd5d2, 0xa3b5, 0x4f7b, 0x9ef6, 0x35fd, 0x6bfa, 0xd7f4, 0xa7f9),
    Then(Row(0xf54a, 0xe285, 0xcd1b, 0x9227, 0x2c5f, 0x58be, 0xb17c, 0x6ae9),
    Then(Row(0xedab, 0xd347, 0xae9f, 0x552f, 0xaa5e, 0x5cad, 0xb95a, 0x7aa5),
    Then(Row(0x1b34, 0x3668, 0x6cd0, 0xd9a0, 0xbb51, 0x7eb3, 0xfd66, 0xf2dd),
    Then(Row(0x77bc, 0xef78, 0xd6e1, 0xa5d3, 0x43b7, 0x876e, 0x06cd, 0x0d9a),
    Then(Row(0x7f90, 0xff20, 0xf651, 0xe4b3, 0xc177, 0x8aff, 0x1def, 0x3bde),
    Then(Row(0x94f6, 0x21fd, 0x43fa, 0x87f4, 0x07f9, 0x0ff2, 0x1fe4, 0x3fc8),
    Then(Row(0x922d, 0x2c4b, 0x5896, 0xb12c, 0x6a49, 0xd492, 0xa135, 0x4a7b),
    Then(Row(0xfa75, 0xfcfb, 0xf1e7, 0xebdf, 0xdfaf, 0xb74f, 0x668f, 0xcd1e),
    Then(Row(0x24d0, 0x49a0, 0x9340, 0x2e91, 0x5d22, 0xba44, 0x7c99, 0xf932),
    End)))))))))))
  }

  lemma Syndrom5Tabulates()
    ensures Tabulates(0xcf15, Syndrom5(), 0x24d0)
  {
  }

  lemma Syndrom5IsFresh()
    ensures Fresh(Syndrom5())
  {
  }

  function Syndrom6(): Rows {
    Then(Row(0xd6a9, 0xa543, 0x4297, 0x852e, 0x024d, 0x049a, 0x0934, 0x1268),
    Then(Row(0x381d, 0x703a, 0xe074, 0xc8f9, 0x99e3, 0x3bd7, 0x77ae, 0xef5c),
    Then(Row(0xcb5c, 0x9ea9, 0x3543, 0x6a86, 0xd50c, 0xa209, 0x4c03, 0x9806),
    Then(Row(0x9822, 0x3855, 0x70aa, 0xe154, 0xcab9, 0x9d63, 0x32d7, 0x65ae),
    Then(Row(0x0288, 0x0510, 0x0a20, 0x1440, 0x2880, 0x5100, 0xa200, 0x4c11),
    Then(Row(0x0842, 0x1084, 0x2108, 0x4210, 0x8420, 0x0051, 0x00a2, 0x0144),
    Then(Row(0x611e, 0xc23c, 0x8c69, 0x10c3, 0x2186, 0x430c, 0x8618, 0x0421),
    Then(Row(0xf99e, 0xfb2d, 0xfe4b, 0xf487, 0xe11f, 0xca2f, 0x9c4f, 0x308f),
    Then(Row(0x7d0e, 0xfa1c, 0xfc29, 0xf043, 0xe897, 0xd93f, 0xba6f, 0x7ccf),
    Then(Row(0xe903, 0xda17, 0xbc3f, 0x706f, 0xe0de, 0xc9ad, 0x9b4b, 0x3e87),
    Then(Row(0x3272, 0x64e4, 0xc9c8, 0x9b81, 0x3f13, 0x7e26, 0xfc4c, 0xf089),
    End)))))))))))
  }

  lemma Syndrom6Tabulates()
    ensures Tabulates(0x24d0, Syndrom6(), 0x3272)
  {
  }

  lemma Syndrom6IsFresh()
    ensures Fresh(Syndrom6())
  {
  }

  function Syndrom7(): Rows {
    Then(Row(0x50a7, 0xa14e, 0x4a8d, 0x951a, 0x2225, 0x444a, 0x8894, 0x1939),
    Then(Row(0xd1e5, 0xabdb, 0x5fa7, 0xbf4e, 0x768d, 0xed1a, 0xd225, 0xac5b),
    Then(Row(0xb072, 0x68f5, 0xd1ea, 0xabc5, 0x5f9b, 0xbf36, 0x767d, 0xecfa),
    Then(Row(0x5025, 0xa04a, 0x4885, 0x910a, 0x2a05, 0x540a, 0xa814, 0x5839),
    Then(Row(0x76ff, 0xedfe, 0xd3ed, 0xafcb, 0x5787, 0xaf0e, 0x560d, 0xac1a),
    Then(Row(0x0f0e, 0x1e1c, 0x3c38, 0x7870, 0xf0e0, 0xe9d1, 0xdbb3, 0xbf77),
    Then(Row(0xe971, 0xdaf3, 0xbdf7, 0x73ff, 0xe7fe, 0xc7ed, 0x87cb, 0x0787),
    Then(Row(0x62e7, 0xc5ce, 0x838d, 0x0f0b, 0x1e16, 0x3c2c, 0x7858, 0xf0b0),
    Then(Row(0x93d3, 0x2fb7, 0x5f6e, 0xbedc, 0x75a9, 0xeb52, 0xdeb5, 0xb57b),
    Then(Row(0xe485, 0xc11b, 0x8a27, 0x1c5f, 0x38be, 0x717c, 0xe2f8, 0xcde1),
    Then(Row(0xd341, 0xae93, 0x5537, 0xaa6e, 0x5ccd, 0xb99a, 0x7b25, 0xf64a),
    End)))))))))))
  }

  lemma Syndrom7Tabulates()
    ensures Tabulates(0x3272, Syndrom7(), 0xd341)
  {
  }

  lemma Syndrom7IsFresh()
    ensures Fresh(Syndrom7())
  {
  }

  function Syndrom8(): Rows {
    Then(Row(0x535e, 0xa6bc, 0x4569, 0x8ad2, 0x1db5, 0x3b6a, 0x76d4, 0xeda8),
    Then(Row(0xbba8, 0x7f41, 0xfe82, 0xf515, 0xe23b, 0xcc67, 0x90df, 0x29af),
    Then(Row(0x29f9, 0x53f2, 0xa7e4, 0x47d9, 0x8fb2, 0x1775, 0x2eea, 0x5dd4),
    Then(Row(0x6a67, 0xd4ce, 0xa18d, 0x4b0b, 0x9616, 0x243d, 0x487a, 0x90f4),
    Then(Row(0x17d3, 0x2fa6, 0x5f4c, 0xbe98, 0x7521, 0xea42, 0xdc95, 0xb13b),
    Then(Row(0xe401, 0xc013, 0x8837, 0x187f, 0x30fe, 0x61fc, 0xc3f8, 0x8fe1),
    Then(Row(0x116d, 0x22da, 0x45b4, 0x8b68, 0x1ec1, 0x3d82, 0x7b04, 0xf608),
    Then(Row(0xb8f2, 0x79f5, 0xf3ea, 0xefc5, 0xd79b, 0xa727, 0x465f, 0x8cbe),
    Then(Row(0xd425, 0xa05b, 0x48a7, 0x914e, 0x2a8d, 0x551a, 0xaa34, 0x5c79),
    Then(Row(0x767b, 0xecf6, 0xd1fd, 0xabeb, 0x5fc7, 0xbf8e, 0x770d, 0xee1a),
    Then(Row(0xcd22, 0x9255, 0x2cbb, 0x5976, 0xb2ec, 0x6dc9, 0xdb92, 0xbf35),
    End)))))))))))
  }

  lemma Syndrom8Tabulates()
    ensures Tabulates(0xd341, Syndrom8(), 0xcd22)
  {
  }

  lemma Syndrom8IsFresh()
    ensures Fresh(Syndrom8())
  {
  }

  function Syndrom9(): Rows {
    Then(Row(0x02dd, 0x05ba, 0x0b74, 0x16e8, 0x2dd0, 0x5ba0, 0xb740, 0x6691),
    Then(Row(0x0d6a, 0x1ad4, 0x35a8, 0x6b50, 0xd6a0, 0xa551, 0x42b3, 0x8566),
    Then(Row(0xcc51, 0x90b3, 0x2977, 0x52ee, 0xa5dc, 0x43a9, 0x8752, 0x06b5),
    Then(Row(0x43c0, 0x8780, 0x0711, 0x0e22, 0x1c44, 0x3888, 0x7110, 0xe220),
    Then(Row(0xc64f, 0x848f, 0x010f, 0x021e, 0x043c, 0x0878, 0x10f0, 0x21e0),
    Then(Row(0xba35, 0x7c7b, 0xf8f6, 0xf9fd, 0xfbeb, 0xffc7, 0xf79f, 0xe72f),
    Then(Row(0x6694, 0xcd28, 0x9241, 0x2c93, 0x5926, 0xb24c, 0x6c89, 0xd912),
    Then(Row(0xd2cb, 0xad87, 0x531f, 0xa63e, 0x446d, 0x88da, 0x19a5, 0x334a),
    Then(Row(0x780d, 0xf01a, 0xe825, 0xd85b, 0xb8a7, 0x795f, 0xf2be, 0xed6d),
    Then(Row(0xdb9d, 0xbf2b, 0x7647, 0xec8e, 0xd10d, 0xaa0b, 0x5c07, 0xb80e),
    Then(Row(0x4fb7, 0x9f6e, 0x36cd, 0x6d9a, 0xdb34, 0xbe79, 0x74e3, 0xe9c6),
    End)))))))))))
  }

  lemma Syndrom9Tabulates()
    ensures Tabulates(0xcd22, Syndrom9(), 0x4fb7)
  {
  }

  lemma Syndrom9IsFresh()
    ensures Fresh(Syndrom9())
  {
  }

  function Syndrom10(): Rows {
    Then(Row(0xc17b, 0x8ae7, 0x1ddf, 0x3bbe, 0x777c, 0xeef8, 0xd5e1, 0xa3d3),
    Then(Row(0xcd95, 0x933b, 0x2e67, 0x5cce, 0xb99c, 0x7b29, 0xf652, 0xe4b5),
    Then(Row(0xc3e9, 0x8fc3, 0x1797, 0x2f2e, 0x5e5c, 0xbcb8, 0x7161, 0xe2c2),
    Then(Row(0x7a0c, 0xf418, 0xe021, 0xc853, 0x98b7, 0x397f, 0x72fe, 0xe5fc),
    Then(Row(0xca16, 0x9c3d, 0x306b, 0x60d6, 0xc1ac, 0x8b49, 0x1e83, 0x3d06),
    Then(Row(0x757d, 0xeafa, 0xdde5, 0xb3db, 0x6fa7, 0xdf4e, 0xb68d, 0x650b),
    Then(Row(0xa817, 0x583f, 0xb07e, 0x68ed, 0xd1da, 0xaba5, 0x5f5b, 0xbeb6),
    Then(Row(0x6496, 0xc92c, 0x9a49, 0x3c83, 0x7906, 0xf20c, 0xec09, 0xd003),
    Then(Row(0xf1db, 0xeba7, 0xdf5f, 0xb6af, 0x654f, 0xca9e, 0x9d2d, 0x324b),
    Then(Row(0x68af, 0xd15e, 0xaaad, 0x5d4b, 0xba96, 0x7d3d, 0xfa7a, 0xfce5),
    Then(Row(0x5d95, 0xbb2a, 0x7e45, 0xfc8a, 0xf105, 0xea1b, 0xdc27, 0xb05f),
    End)))))))))))
  }

  lemma Syndrom10Tabulates()
    ensures Tabulates(0x4fb7, Syndrom10(), 0x5d95)
  {
  }

  lemma Syndrom10IsFresh()
    ensures Fresh(Syndrom10())
  {
  }

  function Syndrom11(): Rows {
    Then(Row(0xc379, 0x8ee3, 0x15d7, 0x2bae, 0x575c, 0xaeb8, 0x5561, 0xaac2),
    Then(Row(0xee85, 0xd51b, 0xa227, 0x4c5f, 0x98be, 0x396d, 0x72da, 0xe5b4),
    Then(Row(0xd34b, 0xae87, 0x551f, 0xaa3e, 0x5c6d, 0xb8da, 0x79a5, 0xf34a),
    Then(Row(0xfc04, 0xf019, 0xe823, 0xd857, 0xb8bf, 0x796f, 0xf2de, 0xedad),
    Then(Row(0x46d8, 0x8db0, 0x1371, 0x26e2, 0x4dc4, 0x9b88, 0x3f01, 0x7e02),
    Then(Row(0x5a83, 0xb506, 0x621d, 0xc43a, 0x8065, 0x08db, 0x11b6, 0x236c),
    Then(Row(0xb6c9, 0x6583, 0xcb06, 0x9e1d, 0x342b, 0x6856, 0xd0ac, 0xa949),
    Then(Row(0x5b7b, 0xb6f6, 0x65fd, 0xcbfa, 0x9fe5, 0x37db, 0x6fb6, 0xdf6c),
    Then(Row(0xcd0f, 0x920f, 0x2c0f, 0x581e, 0xb03c, 0x6869, 0xd0d2, 0xa9b5),
    Then(Row(0xf83a, 0xf865, 0xf8db, 0xf9a7, 0xfb5f, 0xfeaf, 0xf54f, 0xe28f),
    Then(Row(0x9e21, 0x3453, 0x68a6, 0xd14c, 0xaa89, 0x5d03, 0xba06, 0x7c1d),
    End)))))))))))
  }

  lemma Syndrom11Tabulates()
    ensures Tabulates(0x5d95, Syndrom11(), 0x9e21)
  {
  }

  lemma Syndrom11IsFresh()
    ensures Fresh(Syndrom11())
  {
  }

  function Syndrom12(): Rows {
    Then(Row(0x3015, 0x602a, 0xc054, 0x88b9, 0x1963, 0x32c6, 0x658c, 0xcb18),
    Then(Row(0x471c, 0x8e38, 0x1461, 0x28c2, 0x5184, 0xa308, 0x4e01, 0x9c02),
    Then(Row(0xdaaa, 0xbd45, 0x729b, 0xe536, 0xc27d, 0x8ceb, 0x11c7, 0x238e),
    Then(Row(0x0a8a, 0x1514, 0x2a28, 0x5450, 0xa8a0, 0x5951, 0xb2a2, 0x6d55),
    Then(Row(0x2b58, 0x56b0, 0xad60, 0x52d1, 0xa5a2, 0x4355, 0x86aa, 0x0545),
    Then(Row(0xdee6, 0xb5dd, 0x63ab, 0xc756, 0x86bd, 0x056b, 0x0ad6, 0x15ac),
    Then(Row(0x82e6, 0x0ddd, 0x1bba, 0x3774, 0x6ee8, 0xddd0, 0xb3b1, 0x6f73),
    Then(Row(0x82ba, 0x0d65, 0x1aca, 0x3594, 0x6b28, 0xd650, 0xa4b1, 0x4173),
    Then(Row(0x1a53, 0x34a6, 0x694c, 0xd298, 0xad21, 0x5253, 0xa4a6, 0x415d),
    Then(Row(0x6004, 0xc008, 0x8801, 0x1813, 0x3026, 0x604c, 0xc098, 0x8921),
    Then(Row(0x4644, 0x8c88, 0x1101, 0x2202, 0x4404, 0x8808, 0x1801, 0x3002),
    End)))))))))))
  }

  lemma Syndrom12Tabulates()
    ensures Tabulates(0x9e21, Syndrom12(), 0x4644)
  {
  }

  lemma Syndrom12IsFresh()
    ensures Fresh(Syndrom12())
  {
  }

  function Syndrom13(): Rows {
    Then(Row(0x0466, 0x08cc, 0x1198, 0x2330, 0x4660, 0x8cc0, 0x1191, 0x2322),
    Then(Row(0x0634, 0x0c68, 0x18d0, 0x31a0, 0x6340, 0xc680, 0x8511, 0x0233),
    Then(Row(0x77a1, 0xef42, 0xd695, 0xa53b, 0x4267, 0x84ce, 0x018d, 0x031a),
    Then(Row(0xb4f4, 0x61f9, 0xc3f2, 0x8ff5, 0x17fb, 0x2ff6, 0x5fec, 0xbfd8),
    Then(Row(0xb11f, 0x6a2f, 0xd45e, 0xa0ad, 0x494b, 0x9296, 0x2d3d, 0x5a7a),
    Then(Row(0xe8c7, 0xd99f, 0xbb2f, 0x7e4f, 0xfc9e, 0xf12d, 0xea4b, 0xdc87),
    Then(Row(0xb25b, 0x6ca7, 0xd94e, 0xba8d, 0x7d0b, 0xfa16, 0xfc3d, 0xf06b),
    Then(Row(0xece4, 0xd1d9, 0xaba3, 0x5f57, 0xbeae, 0x754d, 0xea9a, 0xdd25),
    Then(Row(0xa1c6, 0x4b9d, 0x973a, 0x2665, 0x4cca, 0x9994, 0x3b39, 0x7672),
    Then(Row(0xa39b, 0x4f27, 0x9e4e, 0x348d, 0x691a, 0xd234, 0xac79, 0x50e3),
    Then(Row(0x2af9, 0x55f2, 0xabe4, 0x5fd9, 0xbfb2, 0x7775, 0xeeea, 0xd5c5),
    End)))))))))))
  }

  lemma Syndrom13Tabulates()
    ensures Tabulates(0x4644, Syndrom13(), 0x2af9)
  {
  }

  lemma Syndrom13IsFresh()
    ensures Fresh(Syndrom13())
  {
  }

  function Syndrom14(): Rows {
    Then(Row(0x6a64, 0xd4c8, 0xa181, 0x4b13, 0x9626, 0x245d, 0x48ba, 0x9174),
    Then(Row(0x2548, 0x4a90, 0x9520, 0x2251, 0x44a2, 0x8944, 0x1a99, 0x3532),
    Then(Row(0xce69, 0x94c3, 0x2197, 0x432e, 0x865c, 0x04a9, 0x0952, 0x12a4),
    Then(Row(0xfe09, 0xf403, 0xe017, 0xc83f, 0x986f, 0x38cf, 0x719e, 0xe33c),
    Then(Row(0x9d3f, 0x326f, 0x64de, 0xc9bc, 0x9b69, 0x3ec3, 0x7d86, 0xfb0c),
    Then(Row(0xc9e9, 0x9bc3, 0x3f97, 0x7f2e, 0xfe5c, 0xf4a9, 0xe143, 0xca97),
    Then(Row(0x7a06, 0xf40c, 0xe009, 0xc803, 0x9817, 0x383f, 0x707e, 0xe0fc),
    Then(Row(0x654c, 0xca98, 0x9d21, 0x3253, 0x64a6, 0xc94c, 0x9a89, 0x3d03),
    Then(Row(0x880d, 0x180b, 0x3016, 0x602c, 0xc058, 0x88a1, 0x1953, 0x32a6),
    Then(Row(0xdb6d, 0xbecb, 0x7587, 0xeb0e, 0xde0d, 0xb40b, 0x6007, 0xc00e),
    Then(Row(0xb838, 0x7861, 0xf0c2, 0xe995, 0xdb3b, 0xbe67, 0x74df, 0xe9be),
    End)))))))))))
  }

  lemma Syndrom14Tabulates()
    ensures Tabulates(0x2af9, Syndrom14(), 0xb838)
  {
  }

  lemma Syndrom14IsFresh()
    ensures Fresh(Syndrom14())
  {
  }

  function Syndrom15(): Rows {
    Then(Row(0xbd73, 0x72f7, 0xe5ee, 0xc3cd, 0x8f8b, 0x1707, 0x2e0e, 0x5c1c),
    Then(Row(0x41a1, 0x8342, 0x0e95, 0x1d2a, 0x3a54, 0x74a8, 0xe950, 0xdab1),
    Then(Row(0xb4c2, 0x6195, 0xc32a, 0x8e45, 0x149b, 0x2936, 0x526c, 0xa4d8),
    Then(Row(0xe5aa, 0xc345, 0x8e9b, 0x1527, 0x2a4e, 0x549c, 0xa938, 0x5a61),
    Then(Row(0x0ab5, 0x156a, 0x2ad4, 0x55a8, 0xab50, 0x5eb1, 0xbd62, 0x72d5),
    Then(Row(0xe22c, 0xcc49, 0x9083, 0x2917, 0x522e, 0xa45c, 0x40a9, 0x8152),
    Then(Row(0xeb8c, 0xdf09, 0xb603, 0x6417, 0xc82e, 0x984d, 0x388b, 0x7116),
    Then(Row(0x4e8f, 0x9d1e, 0x322d, 0x645a, 0xc8b4, 0x9979, 0x3ae3, 0x75c6),
    Then(Row(0x7cb1, 0xf962, 0xfad5, 0xfdbb, 0xf367, 0xeedf, 0xd5af, 0xa34f),
    Then(Row(0xa47e, 0x40ed, 0x81da, 0x0ba5, 0x174a, 0x2e94, 0x5d28, 0xba50),
    Then(Row(0x9a5d, 0x3cab, 0x7956, 0xf2ac, 0xed49, 0xd283, 0xad17, 0x523f),
    End)))))))))))
  }

  lemma Syndrom15Tabulates()
    ensures Tabulates(0xb838, Syndrom15(), 0x9a5d)
  {
  }

  lemma Syndrom15IsFresh()
    ensures Fresh(Syndrom15())
  {
  }

  function Syndrom16(): Rows {
    Then(Row(0x89fa, 0x1be5, 0x37ca, 0x6f94, 0xdf28, 0xb641, 0x6493, 0xc926),
    Then(Row(0x585c, 0xb0b8, 0x6961, 0xd2c2, 0xad95, 0x533b, 0xa676, 0x44fd),
    Then(Row(0x98b1, 0x3973, 0x72e6, 0xe5cc, 0xc389, 0x8f03, 0x1617, 0x2c2e),
    Then(Row(0xa49a, 0x4125, 0x824a, 0x0c85, 0x190a, 0x3214, 0x6428, 0xc850),
    Then(Row(0x3b77, 0x76ee, 0xeddc, 0xd3a9, 0xaf43, 0x5697, 0xad2e, 0x524d),
    Then(Row(0x0703, 0x0e06, 0x1c0c, 0x3818, 0x7030, 0xe060, 0xc8d1, 0x99b3),
    Then(Row(0x329c, 0x6538, 0xca70, 0x9cf1, 0x31f3, 0x63e6, 0xc7cc, 0x8789),
    Then(Row(0x5ed7, 0xbdae, 0x734d, 0xe69a, 0xc525, 0x825b, 0x0ca7, 0x194e),
    Then(Row(0xa26c, 0x4cc9, 0x9992, 0x3b35, 0x766a, 0xecd4, 0xd1b9, 0xab63),
    Then(Row(0xa9c8, 0x5b81, 0xb702, 0x6615, 0xcc2a, 0x9045, 0x289b, 0x5136),
    Then(Row(0x4aed, 0x95da, 0x23a5, 0x474a, 0x8e94, 0x1539, 0x2a72, 0x54e4),
    End)))))))))))
  }

  lemma Syndrom16Tabulates()
    ensures Tabulates(0x9a5d, Syndrom16(), 0x4aed)
  {
  }

  lemma Syndrom16IsFresh()
    ensures Fresh(Syndrom16())
  {
  }

  function Syndrom17(): Rows {
    Then(Row(0x3ca1, 0x7942, 0xf284, 0xed19, 0xd223, 0xac57, 0x50bf, 0xa17e),
    Then(Row(0xb4bf, 0x616f, 0xc2de, 0x8dad, 0x134b, 0x2696, 0x4d2c, 0x9a58),
    Then(Row(0x4dc8, 0x9b90, 0x3f31, 0x7e62, 0xfcc4, 0xf199, 0xeb23, 0xde57),
    Then(Row(0x4a09, 0x9412, 0x2035, 0x406a, 0x80d4, 0x09b9, 0x1372, 0x26e4),
    Then(Row(0x9d8b, 0x3307, 0x660e, 0xcc1c, 0x9029, 0x2843, 0x5086, 0xa10c),
    Then(Row(0x3a46, 0x748c, 0xe918, 0xda21, 0xbc53, 0x70b7, 0xe16e, 0xcacd),
    Then(Row(0x2708, 0x4e10, 0x9c20, 0x3051, 0x60a2, 0xc144, 0x8a99, 0x1d23),
    Then(Row(0x8c6f, 0x10cf, 0x219e, 0x433c, 0x8678, 0x04e1, 0x09c2, 0x1384),
    Then(Row(0x9b7d, 0x3eeb, 0x7dd6, 0xfbac, 0xff49, 0xf683, 0xe517, 0xc23f),
    Then(Row(0xa8f9, 0x59e3, 0xb3c6, 0x6f9d, 0xdf3a, 0xb665, 0x64db, 0xc9b6),
    Then(Row(0x6ae6, 0xd5cc, 0xa389, 0x4f03, 0x9e06, 0x341d, 0x683a, 0xd074),
    End)))))))))))
  }

  lemma Syndrom17Tabulates()
    ensures Tabulates(0x4aed, Syndrom17(), 0x6ae6)
  {
  }

  lemma Syndrom17IsFresh()
    ensures Fresh(Syndrom17())
  {
  }

  function Syndrom18(): Rows {
    Then(Row(0x8252, 0x0cb5, 0x196a, 0x32d4, 0x65a8, 0xcb50, 0x9eb1, 0x3573),
    Then(Row(0x7115, 0xe22a, 0xcc45, 0x909b, 0x2927, 0x524e, 0xa49c, 0x4129),
    Then(Row(0x475d, 0x8eba, 0x1565, 0x2aca, 0x5594, 0xab28, 0x5e41, 0xbc82),
    Then(Row(0x8927, 0x1a5f, 0x34be, 0x697c, 0xd2f8, 0xade1, 0x53d3, 0xa7a6),
    Then(Row(0x5534, 0xaa68, 0x5cc1, 0xb982, 0x7b15, 0xf62a, 0xe445, 0xc09b),
    Then(Row(0x77f2, 0xefe4, 0xd7d9, 0xa7a3, 0x4757, 0x8eae, 0x154d, 0x2a9a),
    Then(Row(0xd4ea, 0xa1c5, 0x4b9b, 0x9736, 0x267d, 0x4cfa, 0x99f4, 0x3bf9),
    Then(Row(0x4880, 0x9100, 0x2a11, 0x5422, 0xa844, 0x5899, 0xb132, 0x6a75),
    Then(Row(0x8440, 0x0091, 0x0122, 0x0244, 0x0488, 0x0910, 0x1220, 0x2440),
    Then(Row(0x4280, 0x8500, 0x0211, 0x0422, 0x0844, 0x1088, 0x2110, 0x4220),
    Then(Row(0x844a, 0x0085, 0x010a, 0x0214, 0x0428, 0x0850, 0x10a0, 0x2140),
    End)))))))))))
  }

  lemma Syndrom18Tabulates()
    ensures Tabulates(0x6ae6, Syndrom18(), 0x844a)
  {
  }

  lemma Syndrom18IsFresh()
    ensures Fresh(Syndrom18())
  {
  }

  function Syndrom19(): Rows {
    Then(Row(0xedda, 0xd3a5, 0xaf5b, 0x56a7, 0xad4e, 0x528d, 0xa51a, 0x4225),
    Then(Row(0x793a, 0xf274, 0xecf9, 0xd1e3, 0xabd7, 0x5fbf, 0xbf7e, 0x76ed),
    Then(Row(0x9ea0, 0x3551, 0x6aa2, 0xd544, 0xa299, 0x4d23, 0x9a46, 0x3c9d),
    Then(Row(0xa594, 0x4339, 0x8672, 0x04f5, 0x09ea, 0x13d4, 0x27a8, 0x4f50),
    Then(Row(0xd208, 0xac01, 0x5013, 0xa026, 0x485d, 0x90ba, 0x2965, 0x52ca),
    Then(Row(0x8c9a, 0x1125, 0x224a, 0x4494, 0x8928, 0x1a41, 0x3482, 0x6904),
    Then(Row(0x3b5f, 0x76be, 0xed7c, 0xd2e9, 0xadc3, 0x5397, 0xa72e, 0x464d),
    Then(Row(0xaa49, 0x5c83, 0xb906, 0x7a1d, 0xf43a, 0xe065, 0xc8db, 0x99a7),
    Then(Row(0xdf6f, 0xb6cf, 0x658f, 0xcb1e, 0x9e2d, 0x344b, 0x6896, 0xd12c),
    Then(Row(0x9b2e, 0x3e4d, 0x7c9a, 0xf934, 0xfa79, 0xfce3, 0xf1d7, 0xebbf),
    Then(Row(0xc8e7, 0x99df, 0x3baf, 0x775e, 0xeebc, 0xd569, 0xa2c3, 0x4d97),
    End)))))))))))
  }

  lemma Syndrom19Tabulates()
    ensures Tabulates(0x844a, Syndrom19(), 0xc8e7)
  {
  }

  lemma Syndrom19IsFresh()
    ensures Fresh(Syndrom19())
  {
  }

  function Syndrom20(): Rows {
    Then(Row(0x9379, 0x2ee3, 0x5dc6, 0xbb8c, 0x7f09, 0xfe12, 0xf435, 0xe07b),
    Then(Row(0xeed5, 0xd5bb, 0xa367, 0x4edf, 0x9dbe, 0x336d, 0x66da, 0xcdb4),
    Then(Row(0x81ce, 0x0b8d, 0x171a, 0x2e34, 0x5c68, 0xb8d0, 0x79b1, 0xf362),
    Then(Row(0x2ff3, 0x5fe6, 0xbfcc, 0x7789, 0xef12, 0xd635, 0xa47b, 0x40e7),
    Then(Row(0xc53b, 0x8267, 0x0cdf, 0x19be, 0x337c, 0x66f8, 0xcdf0, 0x93f1),
    Then(Row(0x8f95, 0x173b, 0x2e76, 0x5cec, 0xb9d8, 0x7ba1, 0xf742, 0xe695),
    Then(Row(0xc3ab, 0x8f47, 0x169f, 0x2d3e, 0x5a7c, 0xb4f8, 0x61e1, 0xc3c2),
    Then(Row(0x1b1a, 0x3634, 0x6c68, 0xd8d0, 0xb9b1, 0x7b73, 0xf6e6, 0xe5dd),
    Then(Row(0xbfc0, 0x7791, 0xef22, 0xd655, 0xa4bb, 0x4167, 0x82ce, 0x0d8d),
    Then(Row(0xc6b3, 0x8577, 0x02ff, 0x05fe, 0x0bfc, 0x17f8, 0x2ff0, 0x5fe0),
    Then(Row(0x87d6, 0x07bd, 0x0f7a, 0x1ef4, 0x3de8, 0x7bd0, 0xf7a0, 0xe751),
    End)))))))))))
  }

  lemma Syndrom20Tabulates()
    ensures Tabulates(0xc8e7, Syndrom20(), 0x87d6)
  {
  }

  lemma Syndrom20IsFresh()
    ensures Fresh(Syndrom20())
  {
  }

  function Syndrom21(): Rows {
    Then(Row(0xb33c, 0x6e69, 0xdcd2, 0xb1b5, 0x6b7b, 0xd6f6, 0xa5fd, 0x43eb),
    Then(Row(0xfb5c, 0xfea9, 0xf543, 0xe297, 0xcd3f, 0x926f, 0x2ccf, 0x599e),
    Then(Row(0x9812, 0x3835, 0x706a, 0xe0d4, 0xc9b9, 0x9b63, 0x3ed7, 0x7dae),
    Then(Row(0x330b, 0x6616, 0xcc2c, 0x9049, 0x2883, 0x5106, 0xa20c, 0x4c09),
    Then(Row(0xbee0, 0x75d1, 0xeba2, 0xdf55, 0xb6bb, 0x6567, 0xcace, 0x9d8d),
    Then(Row(0xe7b0, 0xc771, 0x86f3, 0x05f7, 0x0bee, 0x17dc, 0x2fb8, 0x5f70),
    Then(Row(0xb56c, 0x62c9, 0xc592, 0x8335, 0x0e7b, 0x1cf6, 0x39ec, 0x73d8),
    Then(Row(0xa9df, 0x5baf, 0xb75e, 0x66ad, 0xcd5a, 0x92a5, 0x2d5b, 0x5ab6),
    Then(Row(0x2ed3, 0x5da6, 0xbb4c, 0x7e89, 0xfd12, 0xf235, 0xec7b, 0xd0e7),
    Then(Row(0xe438, 0xc061, 0x88d3, 0x19b7, 0x336e, 0x66dc, 0xcdb8, 0x9361),
    Then(Row(0xbd2f, 0x724f, 0xe49e, 0xc12d, 0x8a4b, 0x1c87, 0x390e, 0x721c),
    End)))))))))))
  }

  lemma Syndrom21Tabulates()
    ensures Tabulates(0x87d6, Syndrom21(), 0xbd2f)
  {
  }

  lemma Syndrom21IsFresh()
    ensures Fresh(Syndrom21())
  {
  }

  const SYNDROM_SIZE := 1936

  const SYNDROM: seq<Rows> := [
    Syndrom0(), Syndrom1(), Syndrom2(), Syndrom3(), Syndrom4(), Syndrom5(),
    Syndrom6(), Syndrom7(), Syndrom8(), Syndrom9(), Syndrom10(), Syndrom11(),
    Syndrom12(), Syndrom13(), Syndrom14(), Syndrom15(), Syndrom16(), Syndrom17(),
    Syndrom18(), Syndrom19(), Syndrom20(), Syndrom21()]

  const STARTS: seq<bv16> := [
    0x0001, 0x5591, 0xa95d, 0x4063, 0x8047, 0xcf15, 0x24d0, 0x3272,
    0xd341, 0xcd22, 0x4fb7, 0x5d95, 0x9e21, 0x4644, 0x2af9, 0xb838,
    0x9a5d, 0x4aed, 0x6ae6, 0x844a, 0xc8e7, 0x87d6, 0xbd2f]

  /** Any property of three places that the pieces have one by one, they have by number. */
  lemma ByNumber(p: (bv16, Rows, bv16) -> bool, q: nat)
    requires p(0x0001, Syndrom0(), 0x5591) && p(0x5591, Syndrom1(), 0xa95d)
    requires p(0xa95d, Syndrom2(), 0x4063) && p(0x4063, Syndrom3(), 0x8047)
    requires p(0x8047, Syndrom4(), 0xcf15) && p(0xcf15, Syndrom5(), 0x24d0)
    requires p(0x24d0, Syndrom6(), 0x3272) && p(0x3272, Syndrom7(), 0xd341)
    requires p(0xd341, Syndrom8(), 0xcd22) && p(0xcd22, Syndrom9(), 0x4fb7)
    requires p(0x4fb7, Syndrom10(), 0x5d95) && p(0x5d95, Syndrom11(), 0x9e21)
    requires p(0x9e21, Syndrom12(), 0x4644) && p(0x4644, Syndrom13(), 0x2af9)
    requires p(0x2af9, Syndrom14(), 0xb838) && p(0xb838, Syndrom15(), 0x9a5d)
    requires p(0x9a5d, Syndrom16(), 0x4aed) && p(0x4aed, Syndrom17(), 0x6ae6)
    requires p(0x6ae6, Syndrom18(), 0x844a) && p(0x844a, Syndrom19(), 0xc8e7)
    requires p(0xc8e7, Syndrom20(), 0x87d6) && p(0x87d6, Syndrom21(), 0xbd2f)
    requires q < 22
    ensures p(STARTS[q], SYNDROM[q], STARTS[q + 1])
  {
  }

  lemma PieceTabulates(q: nat)
    requires q < 22
    ensures Tabulates(STARTS[q], SYNDROM[q], STARTS[q + 1])
  {
    Syndrom0Tabulates(); Syndrom1Tabulates(); Syndrom2Tabulates(); Syndrom3Tabulates();
    Syndrom4Tabulates(); Syndrom5Tabulates(); Syndrom6Tabulates(); Syndrom7Tabulates();
    Syndrom8Tabulates(); Syndrom9Tabulates(); Syndrom10Tabulates(); Syndrom11Tabulates();
    Syndrom12Tabulates(); Syndrom13Tabulates(); Syndrom14Tabulates(); Syndrom15Tabulates();
    Syndrom16Tabulates(); Syndrom17Tabulates(); Syndrom18Tabulates(); Syndrom19Tabulates();
    Syndrom20Tabulates(); Syndrom21Tabulates();
    ByNumber(Tabulates, q);
  }

  lemma PieceIsFresh(q: nat)
    requires q < 22
    ensures Fresh(SYNDROM[q])
  {
    Syndrom0IsFresh(); Syndrom1IsFresh(); Syndrom2IsFresh(); Syndrom3IsFresh();
    Syndrom4IsFresh(); Syndrom5IsFresh(); Syndrom6IsFresh(); Syndrom7IsFresh();
    Syndrom8IsFresh(); Syndrom9IsFresh(); Syndrom10IsFresh(); Syndrom11IsFresh();
    Syndrom12IsFresh(); Syndrom13IsFresh(); Syndrom14IsFresh(); Syndrom15IsFresh();
    Syndrom16IsFresh(); Syndrom17IsFresh(); Syndrom18IsFresh(); Syndrom19IsFresh();
    Syndrom20IsFresh(); Syndrom21IsFresh();
    ByNumber((start, rows, end) => Fresh(rows), q);
  }

  lemma NextStart(q: nat, n: nat)
    requires q < 22 && STARTS[q] == Power(n)
    ensures STARTS[q + 1] == Power(n + 88)
  {
    PieceTabulates(q);
    LastOfPiece(STARTS[q], SYNDROM[q], STARTS[q + 1], n);
  }

  lemma LastOfPiece(start: bv16, rows: Rows, end: bv16, n: nat)
    requires Tabulates(start, rows, end) && start == Power(n)
    ensures end == Power(n + 88)
  {
    LastIsPower(n, rows);
  }

  lemma {:induction false} StartIsPower(q: nat, n: nat)
    requires q <= 22 && n == 88 * q
    ensures STARTS[q] == Power(n)
    decreases q
  {
    if q > 0 {
      StartIsPower(q - 1, n - 88);
      NextStart(q - 1, n - 88);
    }
  }

  lemma EntryOfPiece(start: bv16, rows: Rows, end: bv16, n: nat, r: nat, i: nat)
    requires Tabulates(start, rows, end) && start == Power(n) && r < 11 && i < 8
    ensures rows.At(r).At(i) == Power(n + 8 * r + 8 - i)
  {
    EntryIsPower(n, rows, r, i);
  }

  lemma PieceIsPower(q: nat, r: nat, i: nat, n: nat)
    requires q < 22 && r < 11 && i < 8 && n == 8 * (11 * q + r + 1) - i
    ensures SYNDROM[q].Length() == 11
    ensures SYNDROM[q].At(r).At(i) == Power(n)
  {
    PieceTabulates(q);
    StartIsPower(q, 88 * q);
    EntryOfPiece(STARTS[q], SYNDROM[q], STARTS[q + 1], 88 * q, r, i);
  }

  /** syndrom [k].  Entry 8 * d + i is what is left of a bit after 8 * (d + 1) - i division steps,
      that is, of bit i of a byte with d bytes after it. */
  function Syndrom(k: nat): (s: bv16)
    requires k < SYNDROM_SIZE
    ensures s == Power(8 * (k / 8 + 1) - k % 8)
  {
    PieceIsPower(k / 8 / 11, k / 8 % 11, k % 8, 8 * (k / 8 + 1) - k % 8);
    SYNDROM[k / 8 / 11].At(k / 8 % 11).At(k % 8)
  }

  /** Reads the table, keeping its contents out of the caller's proof. */
  method ReadSyndrom(k: nat) returns (s: bv16)
    requires k < SYNDROM_SIZE
    ensures s == Power(8 * (k / 8 + 1) - k % 8)
  {
    s := Syndrom(k);
  }

  method ReadCrcCcitt(y: bv16) returns (s: bv16)
    requires y < 256
    ensures s == Shift8(y)
  {
    CrcCcittIsDivision(y);
    s := CrcCcitt(y);
  }

  // ----- how soon the division steps return to where they started

  /** Not within the table. */
  lemma NoReturn(n: nat)
    requires 0 < n <= SYNDROM_SIZE
    ensures Power(n) != 1
  {
    var d := (n - 1) / 8;
    PieceIsPower(d / 11, d % 11, 8 * (d + 1) - n, n);
    PieceIsFresh(d / 11);
    EntryIsFresh(SYNDROM[d / 11], d % 11, 8 * (d + 1) - n);
  }

  lemma ShiftIsInjective(x: bv16, y: bv16)
    requires Shift(x) == Shift(y)
    ensures x == y
  {
  }

  lemma {:induction false} StepsCancel(n: nat, m: nat)
    requires m <= n && Power(n) == Power(m)
    ensures Power(n - m) == 1
    decreases m
  {
    if m > 0 {
      ShiftIsInjective(Power(n - 1), Power(m - 1));
      StepsCancel(n - 1, m - 1);
    }
  }

  /** So all entries of the table differ. */
  lemma PowersDiffer(n: nat, m: nat)
    requires m < n <= SYNDROM_SIZE
    ensures Power(n) != Power(m)
  {
    if Power(n) == Power(m) {
      StepsCancel(n, m);
      NoReturn(n - m);
    }
  }
}
