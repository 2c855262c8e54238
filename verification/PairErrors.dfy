/** What a verbose decoder makes of a block with one wrong bit in each of two bytes (acars-decoder.cpp). */
module PairErrors {
  import opened BlockRecovery
  import opened LinearCode
  import opened Options
  import opened Recovery

  /** Bit i of one byte and bit j of a later one; d and e bytes follow them. */
  function PairSum<B(!new), W(!new)>(code: Code<B, W>, i: nat, d: nat, j: nat, e: nat): W {
    code.addW(code.Syndrome(i, d), code.Syndrome(j, e))
  }

  /** Bits a and b would explain the check word as well as bits i and j do. */
  predicate Confused<B(!new), W(!new,==)>(code: Code<B, W>, i: nat, d: nat, j: nat, e: nat, a: nat, b: nat) {
    code.addW(code.Syndrome(i, d), code.Syndrome(a, d)) == code.addW(code.Syndrome(j, e), code.Syndrome(b, e))
  }

  lemma ResidueOfTwo<B(!new), W(!new)>(code: Code<B, W>, n: nat, p: nat, q: nat, i: nat, j: nat, a: nat, b: nat)
    requires code.Lawful() && p < q < n
    ensures Residue(code, n, PairSum(code, i, n + 1 - p, j, n + 1 - q), [p, q], [a, b])
         == code.addW(PairSum(code, i, n + 1 - p, a, n + 1 - p), PairSum(code, j, n + 1 - q, b, n + 1 - q))
  {
    var d, e := n + 1 - p, n + 1 - q;
    var crc, s, t := PairSum(code, i, d, j, e), code.Syndrome(a, d), code.Syndrome(b, e);
    assert [p, q][1..] == [q] && [a, b][1..] == [b] && [q][1..] == [] && [b][1..] == [];
    assert Residue(code, n, code.addW(crc, s), [q], [b]) == Residue(code, n, code.addW(code.addW(crc, s), t), [], []);
    assert code.WordsAssociate(crc, s, t);
    code.SumsInterchange(code.Syndrome(i, d), code.Syndrome(j, e), s, t);
  }

  lemma PairIsEven<B(!new), W(!new)>(code: Code<B, W>, i: nat, a: nat, d: nat)
    requires code.Lawful() && i < 8 && a < 8
    ensures !code.OddW(PairSum(code, i, d, a, d))
  {
    code.SyndromeIsOdd(i, d);
    code.SyndromeIsOdd(a, d);
    code.SumParity(code.Syndrome(i, d), code.Syndrome(a, d), code.width);
  }

  /** A word of even weight is acceptable only if it is zero. */
  lemma EvenIsZero<B(!new), W(!new)>(code: Code<B, W>, r: W)
    requires code.Lawful() && !code.OddW(r)
    ensures Acceptable(code, r) <==> r == code.zeroW
  {
    if IsTailBit(code, r) {
      var m: nat :| m < 16 && TailSyndrome(code, m) == r;
      code.SyndromeIsOdd(m % 8, m / 8);
    }
  }

  /** Which choices leave an acceptable residue. */
  lemma RepairsAre<B(!new), W(!new)>(code: Code<B, W>, n: nat, p: nat, q: nat, i: nat, j: nat, a: nat, b: nat)
    requires code.Lawful() && p < q < n && i < 8 && j < 8 && a < 8 && b < 8
    ensures Repairs(code, n, PairSum(code, i, n + 1 - p, j, n + 1 - q), [p, q], [a, b])
       <==> Confused(code, i, n + 1 - p, j, n + 1 - q, a, b)
  {
    var d, e := n + 1 - p, n + 1 - q;
    var x, y := PairSum(code, i, d, a, d), PairSum(code, j, e, b, e);
    ResidueOfTwo(code, n, p, q, i, j, a, b);
    PairIsEven(code, i, a, d);
    PairIsEven(code, j, b, e);
    code.SumParity(x, y, code.width);
    EvenIsZero(code, code.addW(x, y));
    code.SumIsZero(x, y);
  }

  /** With the same bit in one byte there is only the same bit in the other. */
  lemma SameBits<B(!new), W(!new)>(code: Code<B, W>, i: nat, d: nat, j: nat, e: nat, b: nat)
    requires code.Lawful() && i < 8 && j < 8 && b < 8
    ensures Confused(code, i, d, j, e, i, b) <==> b == j
  {
    code.SumIsZero(code.Syndrome(i, d), code.Syndrome(i, d));
    code.SumIsZero(code.Syndrome(j, e), code.Syndrome(b, e));
    if b != j {
      code.SyndromesDiffer(j, b, e);
    }
  }

  /** Bits a and b explain the check word, and no pair with a lower first bit does. */
  ghost predicate Foremost<B(!new), W(!new)>(code: Code<B, W>, i: nat, d: nat, j: nat, e: nat, a: nat, b: nat) {
    && a < 8 && b < 8 && Confused(code, i, d, j, e, a, b) && (a < i || (a == i && b == j))
    && forall x, y :: 0 <= x < 8 && 0 <= y < 8 && Confused(code, i, d, j, e, x, y) ==> a <= x
  }

  /** The search takes the first pair of bits that explains the check word: the wrong ones, or others of which the
      first is a lower bit. */
  lemma FirstPair<B(!new), W(!new)>(code: Code<B, W>, n: nat, p: nat, q: nat, i: nat, j: nat, d: nat, e: nat)
    returns (a: nat, b: nat)
    requires code.Lawful() && p < q < n && d == n + 1 - p && e == n + 1 - q && i < 8 && j < 8
    ensures Foremost(code, i, d, j, e, a, b)
    ensures Repair(code, n, PairSum(code, i, d, j, e), [p, q]) == Some([a, b])
  {
    var crc := PairSum(code, i, d, j, e);
    RepairsAre(code, n, p, q, i, j, i, j);
    SameBits(code, i, d, j, e, j);
    RepairIsFirst(code, n, crc, [p, q], [i, j]);
    RepairIsComplete(code, n, crc, [p, q]);
    var bits := Repair(code, n, crc, [p, q]).value;
    a, b := bits[0], bits[1];
    assert bits == [a, b];
    RepairsAre(code, n, p, q, i, j, a, b);
    if a == i {
      SameBits(code, i, d, j, e, b);
    }
    forall x, y | 0 <= x < 8 && 0 <= y < 8 && Confused(code, i, d, j, e, x, y)
      ensures a <= x
    {
      RepairsAre(code, n, p, q, i, j, x, y);
      RepairIsFirst(code, n, crc, [p, q], [x, y]);
    }
  }

  // ----- only the distance of the two bytes counts

  lemma ShiftedSyndrome<B(!new), W(!new)>(code: Code<B, W>, i: nat, far: nat, e: nat)
    ensures code.Syndrome(i, far + e + 1) == code.Shifts(code.Syndrome(i, far), 8 * (e + 1))
  {
    code.ShiftsAdd(code.embed(code.unit(i)), 8 * (far + 1), 8 * (e + 1));
  }

  function UnitSum<B(!new), W(!new)>(code: Code<B, W>, j: nat, b: nat): W {
    code.addW(code.embed(code.unit(j)), code.embed(code.unit(b)))
  }

  lemma OnlyDistanceCounts<B(!new), W(!new)>(code: Code<B, W>, i: nat, j: nat, a: nat, b: nat, far: nat, e: nat)
    requires code.Lawful()
    ensures Confused(code, i, far + e + 1, j, e, a, b)
       <==> code.addW(code.Syndrome(i, far), code.Syndrome(a, far)) == UnitSum(code, j, b)
  {
    var x, y := code.addW(code.Syndrome(i, far), code.Syndrome(a, far)), UnitSum(code, j, b);
    var m := 8 * (e + 1);
    ShiftedSyndrome(code, i, far, e);
    ShiftedSyndrome(code, a, far, e);
    code.ShiftsAreLinear(code.Syndrome(i, far), code.Syndrome(a, far), m);
    code.ShiftsAreLinear(code.embed(code.unit(j)), code.embed(code.unit(b)), m);
    if code.Shifts(x, m) == code.Shifts(y, m) {
      code.ShiftsAreInjective(x, y, m);
    }
  }

  // ----- the block

  lemma TwoPlaces(places: seq<nat>, n: nat, p: nat, q: nat)
    requires Increasing(places, n) && p in places && q in places && p < q
    requires forall j :: 0 <= j < |places| ==> places[j] == p || places[j] == q
    ensures places == [p, q]
  {
    var last := places[|places| - 1];
    assert places[0] == p && last == q;
    assert |places| > 1 && places[1] == q;
  }

  lemma TwoEvenPlaces<B(!new), W(!new)>(code: Code<B, W>, txt: seq<B>, p: nat, i: nat, q: nat, j: nat)
    requires code.Lawful() && AllOdd(code, txt) && p < q < |txt| && i < 8 && j < 8
    ensures EvenPlaces(code, code.FlipIn(code.FlipIn(txt, p, i), q, j)) == [p, q]
  {
    var t := code.FlipIn(code.FlipIn(txt, p, i), q, j);
    var places := EvenPlaces(code, t);
    FlipChangesParity(code, txt[p], i);
    FlipChangesParity(code, txt[q], j);
    assert !code.OddB(t[p]) && !code.OddB(t[q]);
    forall k | 0 <= k < |places|
      ensures places[k] == p || places[k] == q
    {
      assert !code.OddB(t[places[k]]);
    }
    TwoPlaces(places, |txt|, p, q);
  }

  lemma TwiceFlippedCheck<B(!new), W(!new)>(code: Code<B, W>, txt: seq<B>, tail: seq<B>, p: nat, i: nat, q: nat, j: nat)
    requires code.Lawful() && |tail| == 2 && p < q < |txt| && code.Check(code.zeroW, txt + tail) == code.zeroW
    ensures code.Check(code.zeroW, code.FlipIn(code.FlipIn(txt, p, i), q, j) + tail)
         == PairSum(code, i, |txt| + 1 - p, j, |txt| + 1 - q)
  {
    var once := code.FlipIn(txt, p, i);
    FlippedCheck(code, txt, tail, p, i);
    code.FlipAddsSyndrome(code.zeroW, once + tail, q, j);
    assert code.FlipIn(once + tail, q, j) == code.FlipIn(once, q, j) + tail;
  }

  lemma AfterTwoRepairs<B(!new), W(!new)>(code: Code<B, W>, strip: B -> B, t: seq<B>, tail: seq<B>, p: nat, q: nat,
                                          a: nat, b: nat, crc: W)
    requires code.Lawful() && EvenPlaces(code, t) == [p, q] && p < q < |t| && a < 8 && b < 8
    requires crc == code.Check(code.zeroW, t + tail) && Repair(code, |t|, crc, [p, q]) == Some([a, b])
    ensures ProcessForced(code, strip, true, t, tail)
         == Printed(Strip(strip, code.FlipIn(code.FlipIn(t, q, b), p, a)))
  {
    FlipBoth(code, t, p, q, a, b);
    RepairedTextIsOdd(code, t, [a, b]);
  }

  lemma FlipBoth<B(!new), W(!new)>(code: Code<B, W>, t: seq<B>, p: nat, q: nat, a: nat, b: nat)
    requires p < q < |t|
    ensures FlipAll(code, t, [p, q], [a, b]) == code.FlipIn(code.FlipIn(t, q, b), p, a)
  {
    assert [p, q][1..] == [q] && [a, b][1..] == [b] && [q][1..] == [] && [b][1..] == [];
    assert FlipAll(code, t, [q], [b]) == code.FlipIn(FlipAll(code, t, [], []), q, b);
  }

  /** Such a block is neither forced nor too bad to be repaired. */
  lemma TwiceHit<B(!new), W(!new)>(code: Code<B, W>, force: B -> B, strip: B -> B, txt: seq<B>, tail: seq<B>,
                                   p: nat, i: nat, q: nat, j: nat, t: seq<B>)
    requires code.Lawful() && Sent(code, force, txt, tail) && p < q < |txt| && p != 12 && q != 12
    requires i < 8 && j < 8 && t == code.FlipIn(code.FlipIn(txt, p, i), q, j)
    ensures ProcessBlock(code, force, strip, true, t, tail) == ProcessForced(code, strip, true, t, tail)
    ensures EvenPlaces(code, t) == [p, q]
    ensures code.Check(code.zeroW, t + tail) == PairSum(code, i, |txt| + 1 - p, j, |txt| + 1 - q)
  {
    assert Forced(force, t) == t;
    TwoEvenPlaces(code, txt, p, i, q, j);
    TwiceFlippedCheck(code, txt, tail, p, i, q, j);
  }

  /** One bit wrong in each of two bytes, byte 12 not being one of them: the pair that the search has found is flipped
      and the text printed. */
  lemma PairIsFlipped<B(!new), W(!new)>(code: Code<B, W>, force: B -> B, strip: B -> B, txt: seq<B>, tail: seq<B>,
                                        p: nat, i: nat, q: nat, j: nat, t: seq<B>, a: nat, b: nat)
    requires code.Lawful() && Sent(code, force, txt, tail) && p < q < |txt| && p != 12 && q != 12
    requires i < 8 && j < 8 && t == code.FlipIn(code.FlipIn(txt, p, i), q, j) && a < 8 && b < 8
    requires Repair(code, |txt|, PairSum(code, i, |txt| + 1 - p, j, |txt| + 1 - q), [p, q]) == Some([a, b])
    ensures ProcessBlock(code, force, strip, true, t, tail)
         == Printed(Strip(strip, code.FlipIn(code.FlipIn(t, q, b), p, a)))
  {
    TwiceHit(code, force, strip, txt, tail, p, i, q, j, t);
    AfterTwoRepairs(code, strip, t, tail, p, q, a, b, PairSum(code, i, |txt| + 1 - p, j, |txt| + 1 - q));
  }
}
