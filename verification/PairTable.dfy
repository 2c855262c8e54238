/** Which sums of two entries of one row of syndrom are two bits of one byte: where two wrong bits can be taken for two
    others (syndrom.h). */
module PairTable {
  import opened SyndromeTable

  /** x and y differ in two of the eight low bits and in nothing else. */
  predicate TwoBits(x: bv16, y: bv16) {
    var v := x ^ y;
    v < 256 && v & (v - 1) != 0 && (v & (v - 1)) & ((v & (v - 1)) - 1) == 0
  }

  predicate Apart(e0: bv16, e1: bv16, e2: bv16, e3: bv16, e4: bv16, e5: bv16, e6: bv16, e7: bv16) {
    && !TwoBits(e1, e0)
    && !TwoBits(e2, e0) && !TwoBits(e2, e1)
    && !TwoBits(e3, e0) && !TwoBits(e3, e1) && !TwoBits(e3, e2)
    && !TwoBits(e4, e0) && !TwoBits(e4, e1) && !TwoBits(e4, e2) && !TwoBits(e4, e3)
    && !TwoBits(e5, e0) && !TwoBits(e5, e1) && !TwoBits(e5, e2) && !TwoBits(e5, e3)
    && !TwoBits(e5, e4)
    && !TwoBits(e6, e0) && !TwoBits(e6, e1) && !TwoBits(e6, e2) && !TwoBits(e6, e3)
    && !TwoBits(e6, e4) && !TwoBits(e6, e5)
    && !TwoBits(e7, e0) && !TwoBits(e7, e1) && !TwoBits(e7, e2) && !TwoBits(e7, e3)
    && !TwoBits(e7, e4) && !TwoBits(e7, e5) && !TwoBits(e7, e6)
  }

  /** The rows 141, 143 and 207. */
  predicate Exceptional(r: Row) {
    r.e0 == 0x6004 || r.e0 == 0x0466 || r.e0 == 0x4280
  }

  predicate AllApart(rows: Rows)
    decreases rows
  {
    rows.End? || (
      var r := rows.head;
      && (Exceptional(r) || Apart(r.e0, r.e1, r.e2, r.e3, r.e4, r.e5, r.e6, r.e7))
      && AllApart(rows.tail))
  }

  lemma Syndrom0IsApart()
    ensures AllApart(Syndrom0())
  {
  }

  lemma Syndrom1IsApart()
    ensures AllApart(Syndrom1())
  {
  }

  lemma Syndrom2IsApart()
    ensures AllApart(Syndrom2())
  {
  }

  lemma Syndrom3IsApart()
    ensures AllApart(Syndrom3())
  {
  }

  lemma Syndrom4IsApart()
    ensures AllApart(Syndrom4())
  {
  }

  lemma Syndrom5IsApart()
    ensures AllApart(Syndrom5())
  {
  }

  lemma Syndrom6IsApart()
    ensures AllApart(Syndrom6())
  {
  }

  lemma Syndrom7IsApart()
    ensures AllApart(Syndrom7())
  {
  }

  lemma Syndrom8IsApart()
    ensures AllApart(Syndrom8())
  {
  }

  lemma Syndrom9IsApart()
    ensures AllApart(Syndrom9())
  {
  }

  lemma Syndrom10IsApart()
    ensures AllApart(Syndrom10())
  {
  }

  lemma Syndrom11IsApart()
    ensures AllApart(Syndrom11())
  {
  }

  lemma Syndrom12IsApart()
    ensures AllApart(Syndrom12())
  {
  }

  lemma Syndrom13IsApart()
    ensures AllApart(Syndrom13())
  {
  }

  lemma Syndrom14IsApart()
    ensures AllApart(Syndrom14())
  {
  }

  lemma Syndrom15IsApart()
    ensures AllApart(Syndrom15())
  {
  }

  lemma Syndrom16IsApart()
    ensures AllApart(Syndrom16())
  {
  }

  lemma Syndrom17IsApart()
    ensures AllApart(Syndrom17())
  {
  }

  lemma Syndrom18IsApart()
    ensures AllApart(Syndrom18())
  {
  }

  lemma Syndrom19IsApart()
    ensures AllApart(Syndrom19())
  {
  }

  lemma Syndrom20IsApart()
    ensures AllApart(Syndrom20())
  {
  }

  lemma Syndrom21IsApart()
    ensures AllApart(Syndrom21())
  {
  }

  lemma PieceIsApart(q: nat)
    requires q < 22
    ensures AllApart(SYNDROM[q])
  {
    Syndrom0IsApart(); Syndrom1IsApart(); Syndrom2IsApart(); Syndrom3IsApart();
    Syndrom4IsApart(); Syndrom5IsApart(); Syndrom6IsApart(); Syndrom7IsApart();
    Syndrom8IsApart(); Syndrom9IsApart(); Syndrom10IsApart(); Syndrom11IsApart();
    Syndrom12IsApart(); Syndrom13IsApart(); Syndrom14IsApart(); Syndrom15IsApart();
    Syndrom16IsApart(); Syndrom17IsApart(); Syndrom18IsApart(); Syndrom19IsApart();
    Syndrom20IsApart(); Syndrom21IsApart();
    ByNumber((start, rows, end) => AllApart(rows), q);
  }

  lemma {:induction false} RowIsApart(rows: Rows, k: nat)
    requires AllApart(rows) && k < rows.Length()
    ensures var r := rows.At(k);
            Exceptional(r) || Apart(r.e0, r.e1, r.e2, r.e3, r.e4, r.e5, r.e6, r.e7)
    decreases k
  {
    if k > 0 {
      RowIsApart(rows.tail, k - 1);
    }
  }

  lemma PairIsApart(r: Row, i: nat, a: nat)
    requires Apart(r.e0, r.e1, r.e2, r.e3, r.e4, r.e5, r.e6, r.e7) && a < i < 8
    ensures !TwoBits(r.At(i), r.At(a))
  {
  }

  // ----- the three rows that are left

  lemma Row141(r: Row, i: nat, a: nat, x: bv16, y: bv16)
    requires r == Row(0x6004, 0xc008, 0x8801, 0x1813, 0x3026, 0x604c, 0xc098, 0x8921) && a < i < 8
    requires x == r.At(i) && y == r.At(a)
    ensures TwoBits(x, y) <==> (i == 5 && a == 0) || (i == 6 && a == 1)
    ensures i == 5 && a == 0 ==> x ^ y == 0x48
    ensures i == 6 && a == 1 ==> x ^ y == 0x90
  {
  }

  lemma Row143(r: Row, i: nat, a: nat, x: bv16, y: bv16)
    requires r == Row(0x0466, 0x08cc, 0x1198, 0x2330, 0x4660, 0x8cc0, 0x1191, 0x2322) && a < i < 8
    requires x == r.At(i) && y == r.At(a)
    ensures TwoBits(x, y) <==> (i == 6 && a == 2) || (i == 7 && a == 3)
    ensures i == 6 && a == 2 ==> x ^ y == 0x09
    ensures i == 7 && a == 3 ==> x ^ y == 0x12
  {
  }

  lemma Row207(r: Row, i: nat, a: nat, x: bv16, y: bv16)
    requires r == Row(0x4280, 0x8500, 0x0211, 0x0422, 0x0844, 0x1088, 0x2110, 0x4220) && a < i < 8
    requires x == r.At(i) && y == r.At(a)
    ensures TwoBits(x, y) <==> i == 7 && a == 0
    ensures i == 7 && a == 0 ==> x ^ y == 0xa0
  {
  }

  // ----- by number

  /** Row d of the table. */
  function TableRow(d: nat): (r: Row)
    requires d < 242
    ensures forall i :: 0 <= i < 8 ==> r.At(i) == Power(8 * (d + 1) - i)
  {
    TableEntries(d);
    SYNDROM[d / 11].At(d % 11)
  }

  lemma TableEntries(d: nat)
    requires d < 242
    ensures SYNDROM[d / 11].Length() == 11
    ensures forall i :: 0 <= i < 8 ==> SYNDROM[d / 11].At(d % 11).At(i) == Power(8 * (d + 1) - i)
  {
    PieceIsPower(d / 11, d % 11, 0, 8 * (d + 1));
    forall i | 0 <= i < 8
      ensures SYNDROM[d / 11].At(d % 11).At(i) == Power(8 * (d + 1) - i)
    {
      PieceIsPower(d / 11, d % 11, i, 8 * (d + 1) - i);
    }
  }

  lemma Pieces()
    ensures SYNDROM[12] == Syndrom12() && SYNDROM[13] == Syndrom13() && SYNDROM[18] == Syndrom18()
  {
  }

  lemma Row141Stands()
    ensures Syndrom12().At(9) == Row(0x6004, 0xc008, 0x8801, 0x1813, 0x3026, 0x604c, 0xc098, 0x8921)
  {
  }

  lemma Row143Stands()
    ensures Syndrom13().At(0) == Row(0x0466, 0x08cc, 0x1198, 0x2330, 0x4660, 0x8cc0, 0x1191, 0x2322)
  {
  }

  lemma Row207Stands()
    ensures Syndrom18().At(9) == Row(0x4280, 0x8500, 0x0211, 0x0422, 0x0844, 0x1088, 0x2110, 0x4220)
  {
  }

  lemma LeftRows()
    ensures TableRow(141) == Row(0x6004, 0xc008, 0x8801, 0x1813, 0x3026, 0x604c, 0xc098, 0x8921)
    ensures TableRow(143) == Row(0x0466, 0x08cc, 0x1198, 0x2330, 0x4660, 0x8cc0, 0x1191, 0x2322)
    ensures TableRow(207) == Row(0x4280, 0x8500, 0x0211, 0x0422, 0x0844, 0x1088, 0x2110, 0x4220)
  {
    Pieces();
    Row141Stands();
    Row143Stands();
    Row207Stands();
  }

  lemma RowOfPower(d: nat, e: nat)
    requires d < 242 && e < 242 && TableRow(d).At(0) == TableRow(e).At(0)
    ensures d == e
  {
    if d < e {
      PowersDiffer(8 * (e + 1), 8 * (d + 1));
    } else if e < d {
      PowersDiffer(8 * (d + 1), 8 * (e + 1));
    }
  }

  /** No other row is exceptional. */
  lemma ThreeRows(d: nat)
    requires d < 242 && Exceptional(TableRow(d))
    ensures d == 141 || d == 143 || d == 207
  {
    LeftRows();
    if TableRow(d).e0 == 0x6004 {
      RowOfPower(d, 141);
    } else if TableRow(d).e0 == 0x0466 {
      RowOfPower(d, 143);
    } else {
      RowOfPower(d, 207);
    }
  }

  /** Bits i and a of a byte with d bytes behind it have, together, the syndromes of two bits of the register's low
      byte. */
  predicate Twins(d: nat, i: nat, a: nat) {
    || (d == 141 && ((i == 5 && a == 0) || (i == 6 && a == 1)))
    || (d == 143 && ((i == 6 && a == 2) || (i == 7 && a == 3)))
    || (d == 207 && i == 7 && a == 0)
  }

  function TwinSum(d: nat, i: nat): bv16 {
    if d == 141 then (if i == 5 then 0x48 else 0x90)
    else if d == 143 then (if i == 6 then 0x09 else 0x12)
    else 0xa0
  }

  lemma OtherRow(d: nat, r: Row)
    requires d < 242 && d != 141 && d != 143 && d != 207 && r == TableRow(d)
    ensures Apart(r.e0, r.e1, r.e2, r.e3, r.e4, r.e5, r.e6, r.e7)
  {
    TableEntries(d);
    PieceIsApart(d / 11);
    RowIsApart(SYNDROM[d / 11], d % 11);
    if Exceptional(r) {
      ThreeRows(d);
    }
  }

  /** x and y are the entries of bits i and a in row d. */
  predicate Entries(d: nat, i: nat, a: nat, x: bv16, y: bv16)
    requires a < i < 8
  {
    x == Power(8 * (d + 1) - i) && y == Power(8 * (d + 1) - a)
  }

  lemma OtherPair(d: nat, i: nat, a: nat) returns (x: bv16, y: bv16)
    requires d < 242 && d != 141 && d != 143 && d != 207 && a < i < 8
    ensures Entries(d, i, a, x, y) && !TwoBits(x, y)
  {
    var r := TableRow(d);
    OtherRow(d, r);
    PairIsApart(r, i, a);
    x, y := r.At(i), r.At(a);
  }

  lemma LeftRow(d: nat) returns (r: Row)
    requires d == 141 || d == 143 || d == 207
    ensures forall i, a :: 0 <= a < i < 8 ==> Entries(d, i, a, r.At(i), r.At(a))
    ensures d == 141 ==> r == Row(0x6004, 0xc008, 0x8801, 0x1813, 0x3026, 0x604c, 0xc098, 0x8921)
    ensures d == 143 ==> r == Row(0x0466, 0x08cc, 0x1198, 0x2330, 0x4660, 0x8cc0, 0x1191, 0x2322)
    ensures d == 207 ==> r == Row(0x4280, 0x8500, 0x0211, 0x0422, 0x0844, 0x1088, 0x2110, 0x4220)
  {
    r := TableRow(d);
    LeftRows();
  }

  lemma SumOfLeft(d: nat, r: Row, i: nat, a: nat, x: bv16, y: bv16)
    requires (d == 141 || d == 143 || d == 207) && a < i < 8 && x == r.At(i) && y == r.At(a)
    requires d == 141 ==> r == Row(0x6004, 0xc008, 0x8801, 0x1813, 0x3026, 0x604c, 0xc098, 0x8921)
    requires d == 143 ==> r == Row(0x0466, 0x08cc, 0x1198, 0x2330, 0x4660, 0x8cc0, 0x1191, 0x2322)
    requires d == 207 ==> r == Row(0x4280, 0x8500, 0x0211, 0x0422, 0x0844, 0x1088, 0x2110, 0x4220)
    ensures (TwoBits(x, y) <==> Twins(d, i, a)) && (Twins(d, i, a) ==> x ^ y == TwinSum(d, i))
  {
    if d == 141 {
      Row141(r, i, a, x, y);
    } else if d == 143 {
      Row143(r, i, a, x, y);
    } else {
      Row207(r, i, a, x, y);
    }
  }

  lemma LeftPair(d: nat, i: nat, a: nat) returns (x: bv16, y: bv16)
    requires (d == 141 || d == 143 || d == 207) && a < i < 8
    ensures Entries(d, i, a, x, y)
    ensures (TwoBits(x, y) <==> Twins(d, i, a)) && (Twins(d, i, a) ==> x ^ y == TwinSum(d, i))
  {
    var r := LeftRow(d);
    x, y := r.At(i), r.At(a);
    SumOfLeft(d, r, i, a, x, y);
  }

  lemma TwinsAreTwoBits(d: nat, i: nat, a: nat) returns (x: bv16, y: bv16)
    requires d < 242 && a < i < 8
    ensures Entries(d, i, a, x, y)
    ensures (TwoBits(x, y) <==> Twins(d, i, a)) && (Twins(d, i, a) ==> x ^ y == TwinSum(d, i))
  {
    if d == 141 || d == 143 || d == 207 {
      x, y := LeftPair(d, i, a);
    } else {
      x, y := OtherPair(d, i, a);
    }
  }
}
