/** Two wrong bits in two bytes of an ACARS block: when they are corrected, and what is printed when they are not. */
module AcarsPairs {
  import opened Acars
  import opened BlockRecovery
  import opened Crc
  import opened LinearCode
  import opened Options
  import opened PairErrors
  import opened PairTable
  import opened Recovery
  import opened SyndromeTable

  /** Bit i of one byte and bit j of the byte that follows at this distance are taken for two others. */
  predicate Mistaken(distance: nat, i: nat, j: nat) {
    || (distance == 142 && ((i == 5 && (j == 3 || j == 6)) || (i == 6 && (j == 4 || j == 7))))
    || (distance == 144 && ((i == 6 && (j == 0 || j == 3)) || (i == 7 && (j == 1 || j == 4))))
    || (distance == 208 && i == 7 && (j == 5 || j == 7))
  }

  /** The two bits that are flipped for bits i and j. */
  function Taken(distance: nat, i: nat, j: nat): (r: (nat, nat))
    requires i < 8 && j < 8
    ensures r.0 < 8 && r.1 < 8
  {
    if !Mistaken(distance, i, j) then (i, j)
    else if distance == 142 then (if i == 5 then (0, 9 - j) else (1, 11 - j))
    else if distance == 144 then (if i == 6 then (2, 3 - j) else (3, 5 - j))
    else (0, 12 - j)
  }

  lemma UnitsAreTwoBits(j: nat, b: nat, x: Word, y: Word)
    requires j < 8 && b < 8 && j != b && XorWords(x, y) == XorWords(ToWord(Bit(j)), ToWord(Bit(b)))
    ensures TwoBits(x, y)
  {
  }

  /** Which two bits make these bytes. */
  lemma WhichUnits(j: nat, b: nat, v: Word)
    requires j < 8 && b < 8 && v == XorWords(ToWord(Bit(j)), ToWord(Bit(b)))
    ensures v == 0x48 <==> (j == 3 && b == 6) || (j == 6 && b == 3)
    ensures v == 0x90 <==> (j == 4 && b == 7) || (j == 7 && b == 4)
    ensures v == 0x09 <==> (j == 0 && b == 3) || (j == 3 && b == 0)
    ensures v == 0x12 <==> (j == 1 && b == 4) || (j == 4 && b == 1)
    ensures v == 0xa0 <==> (j == 5 && b == 7) || (j == 7 && b == 5)
  {
  }

  lemma TwinsAreMistaken(d: nat, i: nat, a: nat, j: nat, b: nat, v: Word)
    requires a < i < 8 && j < 8 && b < 8 && v == XorWords(ToWord(Bit(j)), ToWord(Bit(b)))
    ensures Twins(d, i, a) && v == TwinSum(d, i) <==> Mistaken(d + 1, i, j) && (a, b) == Taken(d + 1, i, j)
  {
    WhichUnits(j, b, v);
  }

  /** The sum of two syndromes is that of two units exactly if these are twins. */
  lemma SumsAgree(d: nat, i: nat, a: nat, j: nat, b: nat, x: Word, y: Word, v: Word)
    requires d < 242 && a < i < 8 && j < 8 && b < 8
    requires x == ACARS.Syndrome(i, d) && y == ACARS.Syndrome(a, d) && v == XorWords(ToWord(Bit(j)), ToWord(Bit(b)))
    ensures XorWords(x, y) == v <==> Twins(d, i, a) && v == TwinSum(d, i)
  {
    SyndromeIsPower(i, d);
    SyndromeIsPower(a, d);
    var s, t := TwinsAreTwoBits(d, i, a);
    assert s == x && t == y;
    if XorWords(x, y) == v {
      if j == b {
        UnequalSum(d, i, a, j, x, y);
      } else {
        UnitsAreTwoBits(j, b, x, y);
      }
    }
  }

  lemma UnequalSum(d: nat, i: nat, a: nat, j: nat, x: Word, y: Word)
    requires a < i < 8 && x == ACARS.Syndrome(i, d) && y == ACARS.Syndrome(a, d)
    ensures XorWords(x, y) != XorWords(ToWord(Bit(j)), ToWord(Bit(j)))
  {
    AcarsIsLawful();
    ACARS.SumIsZero(x, y);
    ACARS.SumIsZero(ToWord(Bit(j)), ToWord(Bit(j)));
    ACARS.SyndromesDiffer(i, a, d);
  }

  lemma ConfusedIff(distance: nat, e: nat, i: nat, j: nat, a: nat, b: nat)
    requires 1 <= distance <= 242 && a < i < 8 && j < 8 && b < 8
    ensures Confused(ACARS, i, distance + e, j, e, a, b)
       <==> Mistaken(distance, i, j) && (a, b) == Taken(distance, i, j)
  {
    AcarsIsLawful();
    OnlyDistanceCounts(ACARS, i, j, a, b, distance - 1, e);
    var v := XorWords(ToWord(Bit(j)), ToWord(Bit(b)));
    SumsAgree(distance - 1, i, a, j, b, ACARS.Syndrome(i, distance - 1), ACARS.Syndrome(a, distance - 1), v);
    TwinsAreMistaken(distance - 1, i, a, j, b, v);
  }

  lemma ForemostIsTaken(distance: nat, e: nat, i: nat, j: nat, a: nat, b: nat)
    requires 1 <= distance <= 242 && i < 8 && j < 8 && Foremost(ACARS, i, distance + e, j, e, a, b)
    ensures (a, b) == Taken(distance, i, j)
  {
    if a < i {
      ConfusedIff(distance, e, i, j, a, b);
    } else if Mistaken(distance, i, j) {
      var (x, y) := Taken(distance, i, j);
      ConfusedIff(distance, e, i, j, x, y);
    }
  }

  lemma PairIsTaken(n: nat, p: nat, q: nat, i: nat, j: nat, a: nat, b: nat)
    requires p < q < n <= p + 240 && i < 8 && j < 8 && Foremost(ACARS, i, n + 1 - p, j, n + 1 - q, a, b)
    ensures (a, b) == Taken(q - p, i, j)
  {
    assert n + 1 - p == (q - p) + (n + 1 - q);
    ForemostIsTaken(q - p, n + 1 - q, i, j, a, b);
  }

  lemma FirstIsTaken(n: nat, p: nat, q: nat, i: nat, j: nat) returns (a: nat, b: nat)
    requires p < q < n <= p + 240 && i < 8 && j < 8
    ensures (a, b) == Taken(q - p, i, j)
    ensures Repair(ACARS, n, PairSum(ACARS, i, n + 1 - p, j, n + 1 - q), [p, q]) == Some([a, b])
  {
    AcarsIsLawful();
    a, b := FirstPair(ACARS, n, p, q, i, j, n + 1 - p, n + 1 - q);
    PairIsTaken(n, p, q, i, j, a, b);
  }

  /** What is printed of a sent block with one bit wrong in each of two bytes, byte 12 not being one of them and the
      table covering both. */
  lemma TwoBitsAreTaken(txt: seq<Byte>, c0: Byte, c1: Byte, p: nat, i: nat, q: nat, j: nat, t: seq<Byte>)
    returns (a: nat, b: nat)
    requires IsSent(txt, c0, c1) && p < q < |txt| <= p + 240 && p != 12 && q != 12 && i < 8 && j < 8
    requires t == ACARS.FlipIn(ACARS.FlipIn(txt, p, i), q, j)
    ensures (a, b) == Taken(q - p, i, j)
    ensures ProcessBlock(ACARS, Force, StripParity, true, t, [c0, c1])
         == Printed(Strip(StripParity, ACARS.FlipIn(ACARS.FlipIn(t, q, b), p, a)))
  {
    AcarsIsLawful();
    IsSentIsSent(txt, c0, c1);
    a, b := FirstIsTaken(|txt|, p, q, i, j);
    PairIsFlipped(ACARS, Force, StripParity, txt, [c0, c1], p, i, q, j, t, a, b);
  }

  lemma FlippedBelow(b: Byte, i: nat, a: nat)
    requires a < i < 8
    ensures StripParity(ACARS.Flip(ACARS.Flip(b, i), a)) != StripParity(b)
  {
  }

  /** So the text that was sent is printed unless the two bits are among the ten pairs that Mistaken lists. */
  lemma TwoBitsAreCorrected(txt: seq<Byte>, c0: Byte, c1: Byte, p: nat, i: nat, q: nat, j: nat, t: seq<Byte>)
    requires IsSent(txt, c0, c1) && p < q < |txt| <= p + 240 && p != 12 && q != 12 && i < 8 && j < 8
    requires t == ACARS.FlipIn(ACARS.FlipIn(txt, p, i), q, j)
    ensures ProcessBlock(ACARS, Force, StripParity, true, t, [c0, c1]) == Printed(Strip(StripParity, txt))
       <==> !Mistaken(q - p, i, j)
  {
    var a, b := TwoBitsAreTaken(txt, c0, c1, p, i, q, j, t);
    var r := ACARS.FlipIn(ACARS.FlipIn(t, q, b), p, a);
    if Mistaken(q - p, i, j) {
      FlippedBelow(txt[p], i, a);
      assert Strip(StripParity, r)[p] != Strip(StripParity, txt)[p];
    } else {
      AcarsIsLawful();
      FlipBack(ACARS, ACARS.FlipIn(txt, p, i), q, j);
      FlipBack(ACARS, txt, p, i);
    }
  }
}
